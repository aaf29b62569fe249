/** An upstream group with the round robin policy: its current weights, and the choice of the servers to
    try for a request. Each choice with a candidate is one turn of `RoundRobin`. */
module Upstream {
  import opened RoundRobin

  /** `servers` lists the candidates of `e` in index order. */
  ghost predicate Lists(servers: seq<int>, e: seq<int>) {
    && (forall j, k :: 0 <= j < k < |servers| ==> servers[j] < servers[k])
    && (forall k :: 0 <= k < |servers| ==> 0 <= servers[k] < |e| && e[servers[k]] > 0)
    && (forall i :: 0 <= i < |e| && e[i] > 0 ==> i in servers)
  }

  /** Servers that take no part change neither the total nor the highest. */
  lemma {:induction false} Skip(e: seq<int>, c: seq<int>, from: nat, end: nat)
    requires |c| == |e| && from <= end <= |e|
    requires forall i :: from <= i < end ==> e[i] == 0
    ensures SumOfFirst(e, end) == SumOfFirst(e, from) && Highest(e, c, end) == Highest(e, c, from)
    decreases end
  {
    if end > from {
      Skip(e, c, from, end - 1);
    }
  }

  /** Between two neighbours of the list nobody takes part. */
  lemma NobodyBetween(servers: seq<int>, e: seq<int>, k: nat, i: int)
    requires Lists(servers, e) && k <= |servers| && 0 <= i < |e|
    requires k > 0 ==> servers[k - 1] < i
    requires k < |servers| ==> i < servers[k]
    ensures e[i] <= 0
  {
  }

  /** The index behind the first `k` servers of the list. */
  ghost function Frontier(servers: seq<int>, k: nat): int
    requires k <= |servers|
  {
    if k == 0 then 0 else servers[k - 1] + 1
  }

  lemma SkipTo(servers: seq<int>, e: seq<int>, c: seq<int>, k: nat, end: nat)
    requires Fits(e, c) && Lists(servers, e) && k <= |servers|
    requires end == if k < |servers| then servers[k] else |e|
    ensures Frontier(servers, k) <= end <= |e|
    ensures forall i :: Frontier(servers, k) <= i < end ==> e[i] == 0
    ensures SumOfFirst(e, end) == SumOfFirst(e, Frontier(servers, k))
    ensures Highest(e, c, end) == Highest(e, c, Frontier(servers, k))
  {
    forall i | Frontier(servers, k) <= i < end ensures e[i] == 0 {
      NobodyBetween(servers, e, k, i);
    }
    Skip(e, c, Frontier(servers, k), end);
  }

  /** What the loop over the candidates has done when it has seen the first `k` of them. */
  ghost predicate Seen(servers: seq<int>, e: seq<int>, c: seq<int>, now: seq<int>, k: nat, total: int, best: int)
    requires Fits(e, c) && Lists(servers, e) && k <= |servers|
  {
    var f := Frontier(servers, k);
    && |now| == |c|
    && total == SumOfFirst(e, f)
    && (forall i :: 0 <= i < |c| ==> now[i] == c[i] + if i < f then e[i] else 0)
    && (k > 0 ==> 0 <= best < k && servers[best] == Highest(e, c, f))
  }

  lemma SeeNext(servers: seq<int>, e: seq<int>, c: seq<int>, now: seq<int>, k: nat, total: int, best: int)
    requires Fits(e, c) && Lists(servers, e) && k < |servers|
    requires Seen(servers, e, c, now, k, total, best)
    ensures var index := servers[k];
      var gained := now[index] + e[index];
      var best' := if k == 0 || gained > now[servers[best]] then k else best;
      Seen(servers, e, c, now[index := gained], k + 1, total + e[index], best')
  {
    SkipTo(servers, e, c, k, servers[k]);
    HighestIsFirstHighest(e, c, servers[k]);
  }

  class UpstreamGroup {
    const weights: seq<int>
    var currentWeights: seq<int>

    ghost predicate Valid()
      reads this
    {
      Fits(weights, currentWeights)
    }

    constructor (weights: seq<int>)
      requires forall i :: 0 <= i < |weights| ==> 0 <= weights[i] < 0x1_0000
      ensures Valid() && this.weights == weights
      ensures forall i :: 0 <= i < |weights| ==> currentWeights[i] == 0
    {
      this.weights := weights;
      currentWeights := seq(|weights|, _ => 0);
    }

    /** Every candidate gains its weight, and the position of the highest is returned. */
    method Gain(servers: seq<int>, ghost e: seq<int>) returns (total: int, position: int)
      requires Valid() && Fits(e, currentWeights) && Lists(servers, e)
      requires forall k :: 0 <= k < |servers| ==> e[servers[k]] == weights[servers[k]]
      modifies this`currentWeights
      ensures Valid() && total == Total(e)
      ensures forall i :: 0 <= i < |e| ==> currentWeights[i] == old(currentWeights)[i] + e[i]
      ensures servers != [] ==> 0 <= position < |servers| && servers[position] == Pick(e, old(currentWeights))
    {
      ghost var c := currentWeights;
      total, position := 0, 0;
      for k := 0 to |servers|
        invariant Valid()
        invariant Seen(servers, e, c, currentWeights, k, total, position)
      {
        var index := servers[k];
        SeeNext(servers, e, c, currentWeights, k, total, position);
        total := total + weights[index];
        var gained := currentWeights[index] + weights[index];
        if k == 0 || gained > currentWeights[servers[position]] {
          position := k;
        }
        currentWeights := currentWeights[index := gained];
      }
      SkipTo(servers, e, c, |servers|, |e|);
    }

    /** The server of the turn first, the others behind it in list order. `e` names the effective
        weights that `servers` lists. */
    method OrderRoundRobin(servers: seq<int>, ghost e: seq<int>) returns (ordered: seq<int>)
      requires Valid() && Fits(e, currentWeights) && Lists(servers, e)
      requires forall k :: 0 <= k < |servers| ==> e[servers[k]] == weights[servers[k]]
      modifies this`currentWeights
      ensures Valid()
      ensures servers == [] ==> ordered == [] && currentWeights == old(currentWeights)
      ensures servers != [] ==>
        && (exists b :: 0 <= b < |servers| && servers[b] == Pick(e, old(currentWeights))
                        && ordered == servers[b..] + servers[..b])
        && currentWeights == Turn(e, old(currentWeights))
    {
      if servers == [] {
        return [];
      }
      ghost var c := currentWeights;
      var total, position := Gain(servers, e);
      var first := servers[position];
      currentWeights := currentWeights[first := currentWeights[first] - total];
      assert currentWeights == Turn(e, c);
      ordered := servers[position..] + servers[..position];
    }

    /** The servers in the order to try: the healthy candidates in the order of the turn, then the
        unhealthy ones by index. Without a healthy candidate the unhealthy ones take the turn. `blocked` and
        `healthy` are the circuits and the health at the time of the call. */
    method Candidates(blocked: seq<bool>, healthy: seq<bool>) returns (order: seq<int>)
      requires Valid() && |blocked| == |healthy| == |weights|
      modifies this`currentWeights
      ensures Valid()
      ensures IsOrder(order, weights, blocked, healthy)
      ensures order == [] ==> currentWeights == old(currentWeights)
      ensures order != [] ==>
        var e := Share(weights, blocked, healthy, healthy[order[0]], |weights|);
        order[0] == Pick(e, old(currentWeights)) && currentWeights == Turn(e, old(currentWeights))
      ensures var well, ill := Listed(weights, blocked, healthy, true), Listed(weights, blocked, healthy, false);
        if well != [] then exists turn :: IsRotation(well, turn) && order == turn + ill else IsRotation(ill, order)
    {
      var well, ill := Partition(blocked, healthy);
      if well == [] {
        order := TakeTurn(ill, blocked, healthy, false);
        Joined(well, order, weights, blocked, healthy);
        assert well + order == order;
      } else {
        var turn := TakeTurn(well, blocked, healthy, true);
        Joined(turn, ill, weights, blocked, healthy);
        order := turn + ill;
      }
    }

    method TakeTurn(servers: seq<int>, ghost blocked: seq<bool>, ghost healthy: seq<bool>, ghost health: bool)
      returns (ordered: seq<int>)
      requires Valid() && |blocked| == |healthy| == |weights|
      requires Taking(servers, weights, blocked, healthy, health)
      modifies this`currentWeights
      ensures Valid() && AllOf(ordered, weights, blocked, healthy, health) && IsRotation(servers, ordered)
      ensures servers == [] ==> ordered == [] && currentWeights == old(currentWeights)
      ensures servers != [] ==>
        var e := Share(weights, blocked, healthy, health, |weights|);
        && ordered != []
        && healthy[ordered[0]] == health
        && ordered[0] == Pick(e, old(currentWeights))
        && currentWeights == Turn(e, old(currentWeights))
    {
      ghost var e := Share(weights, blocked, healthy, health, |weights|);
      ordered := OrderRoundRobin(servers, e);
      RotatedIsAllOf(servers, ordered, weights, blocked, healthy, health);
    }

    method Partition(blocked: seq<bool>, healthy: seq<bool>) returns (well: seq<int>, ill: seq<int>)
      requires |blocked| == |healthy| == |weights|
      requires forall i :: 0 <= i < |weights| ==> weights[i] >= 0
      ensures Taking(well, weights, blocked, healthy, true) && well == Listed(weights, blocked, healthy, true)
      ensures Taking(ill, weights, blocked, healthy, false) && ill == Listed(weights, blocked, healthy, false)
    {
      well, ill := [], [];
      for i := 0 to |weights|
        invariant well == ListedBelow(weights, blocked, healthy, true, i)
        invariant ill == ListedBelow(weights, blocked, healthy, false, i)
      {
        if weights[i] > 0 && !blocked[i] {
          if healthy[i] {
            well := well + [i];
          } else {
            ill := ill + [i];
          }
        }
      }
      ListedIsTaking(well, weights, blocked, healthy, true);
      ListedIsTaking(ill, weights, blocked, healthy, false);
    }
  }

  /** Every server with a weight and a circuit that lets traffic through, once, the healthy first. */
  ghost predicate IsOrder(order: seq<int>, weights: seq<int>, blocked: seq<bool>, healthy: seq<bool>)
    requires |blocked| == |healthy| == |weights|
  {
    && (forall k :: 0 <= k < |order| ==> 0 <= order[k] < |weights|)
    && (forall i :: 0 <= i < |weights| ==> (i in order <==> weights[i] > 0 && !blocked[i]))
    && (forall j, k :: 0 <= j < k < |order| ==> order[j] != order[k])
    && (forall j, k :: 0 <= j < k < |order| && healthy[order[k]] ==> healthy[order[j]])
  }

  ghost predicate IsRotation(servers: seq<int>, ordered: seq<int>) {
    if servers == [] then ordered == []
    else exists b :: 0 <= b < |servers| && ordered == servers[b..] + servers[..b]
  }

  lemma RotationKeeps(servers: seq<int>, ordered: seq<int>)
    requires IsRotation(servers, ordered)
    requires forall j, k :: 0 <= j < k < |servers| ==> servers[j] != servers[k]
    ensures |ordered| == |servers|
    ensures forall i :: i in ordered <==> i in servers
    ensures forall j, k :: 0 <= j < k < |ordered| ==> ordered[j] != ordered[k]
  {
    if servers != [] {
      var b :| 0 <= b < |servers| && ordered == servers[b..] + servers[..b];
      assert servers == servers[..b] + servers[b..];
    }
  }

  /** The servers of one health with a weight and an open way, once each, in any order. */
  ghost predicate AllOf(order: seq<int>, weights: seq<int>, blocked: seq<bool>, healthy: seq<bool>, health: bool)
    requires |blocked| == |healthy| == |weights|
  {
    && (forall k :: 0 <= k < |order| ==>
          var i := order[k]; 0 <= i < |weights| && weights[i] > 0 && !blocked[i] && healthy[i] == health)
    && (forall i :: 0 <= i < |weights| && weights[i] > 0 && !blocked[i] && healthy[i] == health ==> i in order)
    && (forall j, k :: 0 <= j < k < |order| ==> order[j] != order[k])
  }

  lemma RotatedIsAllOf(servers: seq<int>, ordered: seq<int>, weights: seq<int>, blocked: seq<bool>,
      healthy: seq<bool>, health: bool)
    requires |blocked| == |healthy| == |weights|
    requires AllOf(servers, weights, blocked, healthy, health) && IsRotation(servers, ordered)
    ensures AllOf(ordered, weights, blocked, healthy, health)
  {
    RotationKeeps(servers, ordered);
    forall k | 0 <= k < |ordered|
      ensures var i := ordered[k]; 0 <= i < |weights| && weights[i] > 0 && !blocked[i] && healthy[i] == health
    {
      assert ordered[k] in servers;
    }
  }

  lemma Joined(well: seq<int>, ill: seq<int>, weights: seq<int>, blocked: seq<bool>, healthy: seq<bool>)
    requires |blocked| == |healthy| == |weights|
    requires AllOf(well, weights, blocked, healthy, true) && AllOf(ill, weights, blocked, healthy, false)
    ensures IsOrder(well + ill, weights, blocked, healthy)
  {
  }

  /** The list of the servers of one health that take part, and its effective weights. */
  ghost predicate Taking(servers: seq<int>, weights: seq<int>, blocked: seq<bool>, healthy: seq<bool>, health: bool)
    requires |blocked| == |healthy| == |weights|
  {
    var e := Share(weights, blocked, healthy, health, |weights|);
    && AllOf(servers, weights, blocked, healthy, health)
    && Lists(servers, e)
    && (forall i :: 0 <= i < |e| ==> e[i] >= 0)
    && (forall k :: 0 <= k < |servers| ==> e[servers[k]] == weights[servers[k]])
  }

  lemma ListedIsTaking(servers: seq<int>, weights: seq<int>, blocked: seq<bool>, healthy: seq<bool>, health: bool)
    requires |blocked| == |healthy| == |weights|
    requires forall i :: 0 <= i < |weights| ==> weights[i] >= 0
    requires ListsBelow(servers, weights, blocked, healthy, health, |weights|)
    ensures Taking(servers, weights, blocked, healthy, health)
  {
  }

  /** The effective weights of the first `n` servers when the servers of one health take part. */
  function Share(weights: seq<int>, blocked: seq<bool>, healthy: seq<bool>, health: bool, n: nat): (e: seq<int>)
    requires |blocked| == |healthy| == |weights| && n <= |weights|
    ensures |e| == n
    ensures forall i :: 0 <= i < n ==> e[i] == if !blocked[i] && healthy[i] == health then weights[i] else 0
  {
    if n == 0 then []
    else
      var last := if !blocked[n - 1] && healthy[n - 1] == health then weights[n - 1] else 0;
      Share(weights, blocked, healthy, health, n - 1) + [last]
  }

  ghost predicate ListsBelow(servers: seq<int>, weights: seq<int>, blocked: seq<bool>, healthy: seq<bool>,
      health: bool, n: nat)
    requires |blocked| == |healthy| == |weights| && n <= |weights|
  {
    && (forall j, k :: 0 <= j < k < |servers| ==> servers[j] < servers[k])
    && (forall k :: 0 <= k < |servers| ==>
          var i := servers[k]; 0 <= i < n && weights[i] > 0 && !blocked[i] && healthy[i] == health)
    && (forall i :: 0 <= i < n && weights[i] > 0 && !blocked[i] && healthy[i] == health ==> i in servers)
  }

  /** The servers of one health with a weight and an open way, by index. */
  function Listed(weights: seq<int>, blocked: seq<bool>, healthy: seq<bool>, health: bool): (servers: seq<int>)
    requires |blocked| == |healthy| == |weights|
    ensures ListsBelow(servers, weights, blocked, healthy, health, |weights|)
  {
    ListedBelow(weights, blocked, healthy, health, |weights|)
  }

  function ListedBelow(weights: seq<int>, blocked: seq<bool>, healthy: seq<bool>, health: bool, n: nat)
    : (servers: seq<int>)
    requires |blocked| == |healthy| == |weights| && n <= |weights|
    ensures ListsBelow(servers, weights, blocked, healthy, health, n)
  {
    if n == 0 then []
    else
      var before := ListedBelow(weights, blocked, healthy, health, n - 1);
      if weights[n - 1] > 0 && !blocked[n - 1] && healthy[n - 1] == health then before + [n - 1] else before
  }
}
