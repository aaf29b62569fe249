/** The permits of one upstream server in every interleaving of their atomic steps, across reloads
    of the configuration.

    A reload that changes a setting builds a new group and copies the breaker of the server into it,
    while the permits of the old group still report to the old one. A reload that changes nothing keeps
    the group. The connection counter is shared by all of them. */
module Permits {
  import opened Basics
  import opened Circuits

  /** How far a permit is: past the breaker but not counted yet, counted without a result, counted
      with a result (a finished request, or a connection that is kept open), or dropped without a
      result and not yet out of the trial slot. */
  datatype Phase = Entering | Live | Reported | Leaving

  datatype Permit = Permit(gen: nat, trial: bool, phase: Phase)

  /** The group of one configuration: the settings of its breaker, and `others` for its servers, weights,
      policy and health check. */
  datatype Generation = Generation(config: Config, others: nat, breaker: Breaker)

  datatype World = World(gens: seq<Generation>, permits: map<nat, Permit>, active: int)

  datatype Action =
    | Acquire(gen: nat, id: nat, now: nat)
    | CountUp(id: nat)
    | Report(id: nat, failed: bool, now: nat)
    | CountDown(id: nat)
    | Release(id: nat)
    | Reload(config: Config, others: nat)

  predicate Can(w: World, a: Action) {
    match a
    case Acquire(gen, id, now) => gen < |w.gens| && id !in w.permits
    case CountUp(id) => id in w.permits && w.permits[id].phase == Entering
    case Report(id, failed, now) => id in w.permits && w.permits[id].phase == Live && w.permits[id].gen < |w.gens|
    case CountDown(id) => id in w.permits && w.permits[id].phase in {Live, Reported}
    case Release(id) => id in w.permits && w.permits[id].phase == Leaving && w.permits[id].gen < |w.gens|
    case Reload(config, others) => w.gens != []
  }

  function WithBreaker(w: World, gen: nat, b: Breaker): World
    requires gen < |w.gens|
  {
    w.(gens := w.gens[gen := w.gens[gen].(breaker := b)])
  }

  function WithPhase(w: World, id: nat, phase: Phase): World
    requires id in w.permits
  {
    w.(permits := w.permits[id := w.permits[id].(phase := phase)])
  }

  function Without(w: World, id: nat): World {
    w.(permits := w.permits - {id})
  }

  /** The registry makes a new group. */
  predicate Changes(last: Generation, config: Config, others: nat) {
    last.config != config || last.others != others
  }

  function Next(w: World, a: Action): World
    requires Can(w, a)
  {
    match a
    case Acquire(gen, id, now) =>
      if !w.gens[gen].config.enabled then
        w.(permits := w.permits[id := Permit(gen, false, Entering)])
      else
        var (b, trial) := Circuits.Admitted(w.gens[gen].breaker, now);
        if trial.None? then w
        else WithBreaker(w, gen, b).(permits := w.permits[id := Permit(gen, trial.value, Entering)])
    case CountUp(id) => WithPhase(w, id, Live).(active := w.active + 1)
    case Report(id, failed, now) =>
      var Generation(config, _, breaker) := w.gens[w.permits[id].gen];
      var w' := WithPhase(w, id, Reported);
      if !config.enabled then w'
      else WithBreaker(w', w.permits[id].gen, Recorded(config, breaker, w.permits[id].trial, failed, now).0)
    case CountDown(id) =>
      var w' := w.(active := w.active - 1);
      if w.permits[id].trial && w.permits[id].phase == Live then WithPhase(w', id, Leaving) else Without(w', id)
    case Release(id) =>
      var gen := w.permits[id].gen;
      Without(WithBreaker(w, gen, Released(w.gens[gen].breaker)), id)
    case Reload(config, others) =>
      var last := w.gens[|w.gens| - 1];
      if Changes(last, config, others) then w.(gens := w.gens + [Generation(config, others, last.breaker)]) else w
  }

  function Initial(config: Config, others: nat): World {
    World([Generation(config, others, FRESH)], map[], 0)
  }

  // ---- What every step keeps

  /** The permit is the trial of its generation and has no result. */
  predicate HoldsTrial(w: World, id: nat, gen: nat) {
    id in w.permits && w.permits[id].gen == gen && w.permits[id].trial && w.permits[id].phase != Reported
  }

  predicate IsCounted(p: Permit) { p.phase == Live || p.phase == Reported }

  function CountedIn(permits: map<nat, Permit>): set<nat> {
    set id | id in permits && IsCounted(permits[id])
  }

  /** The permits that the connection counter includes. */
  function CountedPermits(w: World): set<nat> {
    CountedIn(w.permits)
  }

  ghost predicate TrialsExclusive(w: World) {
    && (forall id :: id in w.permits ==> w.permits[id].gen < |w.gens|)
    && (forall id :: id in w.permits && w.permits[id].phase == Leaving ==> w.permits[id].trial)
    && (forall id: nat, gen: nat :: HoldsTrial(w, id, gen) && gen < |w.gens| ==>
        w.gens[gen].breaker.circuit == HalfOpen(true))
    && (forall id: nat, id': nat, gen: nat :: HoldsTrial(w, id, gen) && HoldsTrial(w, id', gen) ==> id == id')
  }

  ghost predicate Invariant(w: World) {
    && w.gens != []
    && TrialsExclusive(w)
    && w.active == |CountedPermits(w)|
  }

  function One(b: bool): int { if b then 1 else 0 }

  lemma PermitGone(permits: map<nat, Permit>, id: nat)
    requires id in permits
    ensures |CountedIn(permits - {id})| == |CountedIn(permits)| - One(IsCounted(permits[id]))
  {
    var all, rest := CountedIn(permits), CountedIn(permits - {id});
    var fewer := permits - {id};
    assert forall k :: k in fewer <==> k in permits && k != id;
    assert forall k :: k in rest <==> k in all && k != id;
    if IsCounted(permits[id]) {
      assert rest == all - {id};
    } else {
      assert rest == all;
    }
  }

  lemma PermitPut(permits: map<nat, Permit>, id: nat, p: Permit)
    ensures |CountedIn(permits[id := p])|
         == |CountedIn(permits)| + One(IsCounted(p)) - One(id in permits && IsCounted(permits[id]))
  {
    PermitGone(permits[id := p], id);
    assert permits[id := p] - {id} == permits - {id};
    if id in permits {
      PermitGone(permits, id);
    } else {
      assert permits - {id} == permits;
    }
  }

  lemma CounterKept(w: World, a: Action)
    requires w.active == |CountedPermits(w)| && Can(w, a)
    ensures Next(w, a).active == |CountedPermits(Next(w, a))|
  {
    if !a.Reload? {
      var after := Next(w, a).permits;
      if a.id in after {
        assert after == w.permits[a.id := after[a.id]];
        PermitPut(w.permits, a.id, after[a.id]);
      } else if a.id in w.permits {
        assert after == w.permits - {a.id};
        PermitGone(w.permits, a.id);
      }
    }
  }

  lemma ExclusiveKept(w: World, a: Action)
    requires Invariant(w) && Can(w, a)
    ensures TrialsExclusive(Next(w, a))
  {
    var w' := Next(w, a);
    forall id: nat, gen: nat | HoldsTrial(w', id, gen) && gen < |w'.gens|
      ensures w'.gens[gen].breaker.circuit == HalfOpen(true)
    {
      HolderIsOldOrNew(w, a, id, gen);
    }
    forall id: nat, id': nat, gen: nat | HoldsTrial(w', id, gen) && HoldsTrial(w', id', gen) ensures id == id' {
      HolderIsOldOrNew(w, a, id, gen);
      HolderIsOldOrNew(w, a, id', gen);
    }
  }

  /** A holder held the slot before and still finds it taken, or was just admitted to a free slot. */
  lemma HolderIsOldOrNew(w: World, a: Action, id: nat, gen: nat)
    requires Invariant(w) && Can(w, a) && HoldsTrial(Next(w, a), id, gen)
    ensures gen < |w.gens| && Next(w, a).gens[gen].breaker.circuit == HalfOpen(true)
    ensures HoldsTrial(w, id, gen) || (a.Acquire? && a.id == id && forall other: nat :: !HoldsTrial(w, other, gen))
  {
    var w' := Next(w, a);
    if !HoldsTrial(w, id, gen) {
      assert a.Acquire? && a.id == id && a.gen == gen;
    } else if a.Report? && w.permits[a.id].gen == gen {
      if w.permits[a.id].trial {
        assert HoldsTrial(w, a.id, gen);
      }
    } else if a.Release? && w.permits[a.id].gen == gen {
      assert HoldsTrial(w, a.id, gen);
    }
  }

  lemma StepKeepsInvariant(w: World, a: Action)
    requires Invariant(w) && Can(w, a)
    ensures Invariant(Next(w, a))
  {
    CounterKept(w, a);
    ExclusiveKept(w, a);
  }

  // ---- Runs

  ghost predicate IsRun(w: World, acts: seq<Action>)
    decreases |acts|
  {
    acts != [] ==> Can(w, acts[0]) && IsRun(Next(w, acts[0]), acts[1..])
  }

  ghost function After(w: World, acts: seq<Action>): World
    requires IsRun(w, acts)
    decreases |acts|
  {
    if acts == [] then w else After(Next(w, acts[0]), acts[1..])
  }

  lemma {:induction false} RunKeepsInvariant(w: World, acts: seq<Action>)
    requires Invariant(w) && IsRun(w, acts)
    ensures Invariant(After(w, acts))
    decreases |acts|
  {
    if acts != [] {
      StepKeepsInvariant(w, acts[0]);
      RunKeepsInvariant(Next(w, acts[0]), acts[1..]);
    }
  }

  /** In every state of every run, across any reloads: each generation has at most one trial without
      a result and its circuit is then half open with the slot taken, and the connection counter is
      the number of counted permits, so it never goes below zero and an idle server has zero. */
  lemma SafeInEveryRun(config: Config, others: nat, acts: seq<Action>)
    requires IsRun(Initial(config, others), acts)
    ensures var w := After(Initial(config, others), acts);
      && (forall id: nat, id': nat, gen: nat :: HoldsTrial(w, id, gen) && HoldsTrial(w, id', gen) ==> id == id')
      && (forall id: nat, gen: nat :: HoldsTrial(w, id, gen) ==>
            gen < |w.gens| && w.gens[gen].breaker.circuit == HalfOpen(true))
      && w.active == |CountedPermits(w)|
      && (w.permits == map[] ==> w.active == 0)
  {
    assert CountedPermits(Initial(config, others)) == {};
    RunKeepsInvariant(Initial(config, others), acts);
  }

  // ---- Who gets through

  /** The request at `now` gets a permit. */
  predicate LetsThrough(w: World, gen: nat, now: nat)
    requires gen < |w.gens|
  {
    !w.gens[gen].config.enabled || !Blocks(w.gens[gen].breaker, now)
  }

  lemma AcquireDecides(w: World, gen: nat, id: nat, now: nat)
    requires Can(w, Acquire(gen, id, now))
    ensures id in Next(w, Acquire(gen, id, now)).permits <==> LetsThrough(w, gen, now)
    ensures !LetsThrough(w, gen, now) ==> Next(w, Acquire(gen, id, now)) == w
  {
  }

  // ---- An open circuit stays open

  /** The requests to the group among these steps come before `until`. */
  ghost predicate AllBefore(acts: seq<Action>, gen: nat, until: nat) {
    forall k :: 0 <= k < |acts| && acts[k].Acquire? && acts[k].gen == gen ==> acts[k].now < until
  }

  lemma OpenStaysOpen(w: World, a: Action, gen: nat, until: nat)
    requires Can(w, a) && gen < |w.gens| && w.gens[gen].breaker.circuit == Open(until)
    requires a.Acquire? && a.gen == gen ==> a.now < until
    ensures gen < |Next(w, a).gens| && Next(w, a).gens[gen].config == w.gens[gen].config
    ensures w.gens[gen].config.enabled ==> Next(w, a).gens[gen].breaker == w.gens[gen].breaker
    ensures Next(w, a).gens[gen].breaker.circuit == Open(until)
  {
  }

  /** Once a circuit is open, late results, trials of other groups and reloads do not close it: until its
      time is over it refuses every request to its group, in every continuation. */
  lemma {:induction false} OpenInEveryRun(w: World, acts: seq<Action>, gen: nat, until: nat)
    requires IsRun(w, acts) && gen < |w.gens| && AllBefore(acts, gen, until)
    requires w.gens[gen].config.enabled && w.gens[gen].breaker.circuit == Open(until)
    ensures gen < |After(w, acts).gens|
    ensures forall now: nat :: LetsThrough(After(w, acts), gen, now) <==> until <= now
    decreases |acts|
  {
    if acts != [] {
      var rest := acts[1..];
      assert forall k :: 0 <= k < |rest| ==> rest[k] == acts[k + 1];
      OpenStaysOpen(w, acts[0], gen, until);
      OpenInEveryRun(Next(w, acts[0]), rest, gen, until);
    }
  }

  /** The share of failures in the window with one more outcome is at least the configured one. */
  predicate Opens(c: Config, b: Breaker, failed: bool, now: nat) {
    var running := b.windowStart.Some? && c.window > 0 && now < b.windowStart.value + c.window;
    var requests := if running then b.requests + 1 else 1;
    var failures := (if running then b.failures else 0) + if failed then 1 else 0;
    requests >= c.minRequests && failures * 100 >= c.failureRatio * requests
  }

  /** What the result of a permit does to the circuit of its group: the result of a trial opens or closes a
      half-open circuit; another result counts in a closed one and opens it at the share of failures; late
      results change nothing; and no result changes another group. */
  lemma ReportDecides(w: World, id: nat, failed: bool, now: nat)
    requires Can(w, Report(id, failed, now))
    ensures var p, w' := w.permits[id], Next(w, Report(id, failed, now));
      var c, b, b' := w.gens[p.gen].config, w.gens[p.gen].breaker, w'.gens[p.gen].breaker;
      var until := now + c.openDuration;
      && (!c.enabled || (if p.trial then !b.circuit.HalfOpen? else !b.circuit.Closed?) ==> b' == b)
      && (c.enabled && p.trial && b.circuit.HalfOpen? ==> b'.circuit == if failed then Open(until) else Closed)
      && (c.enabled && !p.trial && b.circuit.Closed? && b.requests < MAX_U32 && b.failures < MAX_U32 ==>
            b'.circuit == if Opens(c, b, failed, now) then Open(until) else Closed)
    ensures var w' := Next(w, Report(id, failed, now));
      |w'.gens| == |w.gens| && forall k :: 0 <= k < |w.gens| && k != w.permits[id].gen ==> w'.gens[k] == w.gens[k]
  {
  }

  /** The slot is taken and nobody is there to give it back. */
  ghost predicate Abandoned(w: World, gen: nat)
    requires gen < |w.gens|
  {
    w.gens[gen].breaker.circuit == HalfOpen(true) && forall id: nat :: !HoldsTrial(w, id, gen)
  }

  lemma AbandonedStays(w: World, a: Action, gen: nat)
    requires Invariant(w) && Can(w, a) && gen < |w.gens| && Abandoned(w, gen)
    ensures Abandoned(Next(w, a), gen)
  {
    var w' := Next(w, a);
    forall id: nat ensures !HoldsTrial(w', id, gen) {
      if HoldsTrial(w', id, gen) {
        HolderIsOldOrNew(w, a, id, gen);
      }
    }
    if a.Report? && w.permits[a.id].gen == gen {
      assert !HoldsTrial(w, a.id, gen);
    } else if a.Release? {
      assert HoldsTrial(w, a.id, w.permits[a.id].gen);
    }
  }

  /** Such a generation refuses everything while its breaker is enabled. */
  ghost predicate Stuck(w: World, gen: nat) {
    gen < |w.gens| && w.gens[gen].config.enabled && Abandoned(w, gen)
  }

  /** No step frees a stuck generation, and no step gets another generation stuck. */
  lemma StuckIsForLife(w: World, a: Action, gen: nat)
    requires Invariant(w) && Can(w, a) && gen < |w.gens|
    ensures Stuck(Next(w, a), gen) == Stuck(w, gen)
  {
    if Stuck(w, gen) {
      AbandonedStays(w, a, gen);
    } else if Stuck(Next(w, a), gen) {
      NotStuckSuddenly(w, a, gen);
    }
  }

  lemma NotStuckSuddenly(w: World, a: Action, gen: nat)
    requires Invariant(w) && Can(w, a) && gen < |w.gens| && !Stuck(w, gen)
    ensures !Stuck(Next(w, a), gen)
  {
    var w' := Next(w, a);
    if w'.gens[gen].config.enabled && w'.gens[gen].breaker.circuit == HalfOpen(true) {
      if w.gens[gen].breaker.circuit == HalfOpen(true) {
        var id: nat :| HoldsTrial(w, id, gen);
        assert HoldsTrial(w', id, gen);
      } else {
        assert HoldsTrial(w', a.id, gen);
      }
    }
  }

  /** A stuck generation refuses every request in every continuation, and a generation that is not
      stuck never becomes it. */
  lemma {:induction false} StuckInEveryRun(w: World, acts: seq<Action>, gen: nat)
    requires Invariant(w) && IsRun(w, acts) && gen < |w.gens|
    ensures gen < |After(w, acts).gens|
    ensures Stuck(After(w, acts), gen) == Stuck(w, gen)
    ensures Stuck(w, gen) ==> forall now: nat :: !LetsThrough(After(w, acts), gen, now)
    decreases |acts|
  {
    if acts != [] {
      StuckIsForLife(w, acts[0], gen);
      StepKeepsInvariant(w, acts[0]);
      StuckInEveryRun(Next(w, acts[0]), acts[1..], gen);
    }
  }

  /** A reload makes a new group that is stuck if and only if it changes a setting, the breaker of the new
      group is enabled and the slot of the old one is taken at that moment. */
  lemma ReloadSticksIffSlotIsTaken(w: World, config: Config, others: nat)
    requires Invariant(w)
    ensures Stuck(Next(w, Reload(config, others)), |w.gens|) <==>
            var last := w.gens[|w.gens| - 1];
            Changes(last, config, others) && config.enabled && last.breaker.circuit == HalfOpen(true)
  {
  }

  /** From this generation on every slot is taken and nobody is there to give one back. */
  ghost predicate CutOffFrom(w: World, gen: nat) {
    gen < |w.gens| && forall k :: gen <= k < |w.gens| ==> Abandoned(w, k)
  }

  lemma CutOffStays(w: World, a: Action, gen: nat)
    requires Invariant(w) && Can(w, a) && CutOffFrom(w, gen)
    ensures CutOffFrom(Next(w, a), gen)
  {
    var w' := Next(w, a);
    forall k | gen <= k < |w'.gens| ensures Abandoned(w', k) {
      if k < |w.gens| {
        AbandonedStays(w, a, k);
      } else {
        assert a.Reload? && k == |w.gens| && Abandoned(w, k - 1);
      }
    }
  }

  lemma {:induction false} CutOffInEveryRun(w: World, acts: seq<Action>, gen: nat)
    requires Invariant(w) && IsRun(w, acts) && CutOffFrom(w, gen)
    ensures CutOffFrom(After(w, acts), gen)
    decreases |acts|
  {
    if acts != [] {
      CutOffStays(w, acts[0], gen);
      StepKeepsInvariant(w, acts[0]);
      CutOffInEveryRun(Next(w, acts[0]), acts[1..], gen);
    }
  }

  /** No reload cures a server whose newest group has a slot that nobody holds: in every continuation that
      group and every group that later reloads make, also by way of groups without a breaker, refuse every
      request at every time while their breaker is enabled. */
  lemma NoReloadCures(w: World, acts: seq<Action>)
    requires Invariant(w) && IsRun(w, acts) && Abandoned(w, |w.gens| - 1)
    ensures var w' := After(w, acts);
      && |w.gens| <= |w'.gens|
      && forall k, now: nat :: |w.gens| - 1 <= k < |w'.gens| && w'.gens[k].config.enabled ==> !LetsThrough(w', k, now)
  {
    CutOffInEveryRun(w, acts, |w.gens| - 1);
    var w' := After(w, acts);
    forall k, now: nat | |w.gens| - 1 <= k < |w'.gens| && w'.gens[k].config.enabled ensures !LetsThrough(w', k, now) {
      assert Abandoned(w', k);
    }
  }

  /** A generation that is not stuck and has no trial under way lets a request through as soon as the
      open time of its circuit, if any, is over. */
  lemma IdleRecovers(w: World, gen: nat, now: nat)
    requires gen < |w.gens| && !Stuck(w, gen)
    requires forall id: nat :: !HoldsTrial(w, id, gen)
    requires w.gens[gen].breaker.circuit.Open? ==> now >= w.gens[gen].breaker.circuit.until
    ensures LetsThrough(w, gen, now)
  {
  }

  /** A run that ends with a server that no request reaches any more: one failure opens the circuit, and
      a configuration with any other setting is loaded during the trial. */
  lemma ReloadDuringTrialCutsTheServerOff(config: Config, others: nat, config': Config, others': nat)
    requires config.enabled && config.minRequests == 1 && config.failureRatio <= 100 && config.window > 0
    requires config'.enabled && (config' != config || others' != others)
    ensures exists acts :: IsRun(Initial(config, others), acts) && Stuck(After(Initial(config, others), acts), 1)
  {
    var due := config.openDuration;
    var w0 := Initial(config, others);
    var a0, a1, a2, a3 := Acquire(0, 0, 0), CountUp(0), Report(0, true, 0), CountDown(0);
    var w1 := Next(w0, a0);
    var w2 := Next(w1, a1);
    var w3 := Next(w2, a2);
    assert w3.gens[0].breaker == Opened(config, 0);
    var w4 := Next(w3, a3);
    assert w4 == World([Generation(config, others, Opened(config, 0))], map[], 0);
    var a4, a5 := Acquire(0, 1, due), Reload(config', others');
    var w5 := Next(w4, a4);
    assert w5.gens[0].breaker.circuit == HalfOpen(true);
    var w6 := Next(w5, a5);
    assert Stuck(w6, 1);
    Prefixed(w5, a5, []);
    Prefixed(w4, a4, [a5] + []);
    Prefixed(w3, a3, [a4] + ([a5] + []));
    Prefixed(w2, a2, [a3] + ([a4] + ([a5] + [])));
    Prefixed(w1, a1, [a2] + ([a3] + ([a4] + ([a5] + []))));
    Prefixed(w0, a0, [a1] + ([a2] + ([a3] + ([a4] + ([a5] + [])))));
  }

  lemma Prefixed(w: World, a: Action, acts: seq<Action>)
    requires Can(w, a) && IsRun(Next(w, a), acts)
    ensures IsRun(w, [a] + acts) && After(w, [a] + acts) == After(Next(w, a), acts)
  {
    assert ([a] + acts)[1..] == acts;
  }
}
