/** The circuit breaker of an upstream server, and which outcomes open it. `Permits` is about the requests
    around it. */
module Circuits {
  import opened Basics

  datatype Circuit = Closed | Open(until: nat) | HalfOpen(trial: bool)

  datatype CircuitState = ClosedState | OpenState

  datatype Config = Config(enabled: bool, failureRatio: nat, minRequests: nat, window: nat, openDuration: nat)

  datatype Breaker = Breaker(circuit: Circuit, windowStart: Option<nat>, requests: nat, failures: nat)

  const FRESH := Breaker(Closed, None, 0, 0)

  const MAX_U32: nat := 0xFFFF_FFFF

  function SaturatingInc(x: nat): nat {
    if x >= MAX_U32 then MAX_U32 else x + 1
  }

  function Elapsed(now: nat, since: nat): nat {
    if since <= now then now - since else 0
  }

  // ---- One breaker

  predicate Blocks(b: Breaker, now: nat) {
    match b.circuit
    case Closed => false
    case Open(until) => now < until
    case HalfOpen(trial) => trial
  }

  /** The breaker after the request, and whether the request is the trial. `None` is a refusal. */
  function Admitted(b: Breaker, now: nat): (Breaker, Option<bool>) {
    if Blocks(b, now) then (b, None)
    else if b.circuit.Closed? then (b, Some(false))
    else (b.(circuit := HalfOpen(true)), Some(true))
  }

  function Opened(c: Config, now: nat): Breaker {
    FRESH.(circuit := Open(now + c.openDuration))
  }

  function Counted(b: Breaker, window: nat, failed: bool, now: nat): Breaker {
    var restart := b.windowStart.None? || Elapsed(now, b.windowStart.value) >= window;
    var b' := if restart then b.(windowStart := Some(now), requests := 0, failures := 0) else b;
    b'.(requests := SaturatingInc(b'.requests),
        failures := if failed then SaturatingInc(b'.failures) else b'.failures)
  }

  predicate MustOpen(c: Config, b: Breaker) {
    b.requests >= c.minRequests && b.failures * 100 >= c.failureRatio * b.requests
  }

  function Recorded(c: Config, b: Breaker, trial: bool, failed: bool, now: nat): (Breaker, Option<CircuitState>) {
    if trial then
      if !b.circuit.HalfOpen? then (b, None)
      else if failed then (Opened(c, now), Some(OpenState))
      else (FRESH, Some(ClosedState))
    else if !b.circuit.Closed? then (b, None)
    else
      var b' := Counted(b, c.window, failed, now);
      if MustOpen(c, b') then (Opened(c, now), Some(OpenState)) else (b', None)
  }

  function Released(b: Breaker): Breaker {
    if b.circuit == HalfOpen(true) then b.(circuit := HalfOpen(false)) else b
  }

  class BreakerCell {
    var circuit: Circuit
    var windowStart: Option<nat>
    var requests: nat
    var failures: nat

    function State(): Breaker
      reads this
    {
      Breaker(circuit, windowStart, requests, failures)
    }

    constructor ()
      ensures State() == FRESH
    {
      circuit, windowStart, requests, failures := Closed, None, 0, 0;
    }

    /** A refusal changes nothing, and a circuit that is not closed lets only a trial through. */
    method Admit(now: nat) returns (trial: Option<bool>)
      modifies this
      ensures (State(), trial) == Admitted(old(State()), now)
      ensures trial.None? <==> old(Blocks(State(), now))
      ensures trial == Some(true) ==> Blocks(State(), now)
      ensures old(circuit).Closed? ==> trial == Some(false) && State() == old(State())
      ensures trial.None? ==> State() == old(State())
      ensures trial == Some(true) <==> circuit == HalfOpen(true) && circuit != old(circuit)
    {
      if Blocks(State(), now) {
        return None;
      }
      if circuit.Closed? {
        return Some(false);
      }
      circuit := HalfOpen(true);
      return Some(true);
    }

    method Record(c: Config, trial: bool, failed: bool, now: nat) returns (changed: Option<CircuitState>)
      modifies this
      ensures (State(), changed) == Recorded(c, old(State()), trial, failed, now)
      ensures changed == Some(OpenState) ==> forall t: nat :: Blocks(State(), t) <==> t < now + c.openDuration
      ensures !trial && !old(circuit).Closed? ==> State() == old(State()) && changed.None?
      ensures !trial && old(circuit).Closed? ==> (changed.None? <==> circuit.Closed?) && changed != Some(ClosedState)
      ensures !trial && old(circuit).Closed? && changed.None? ==>
        requests >= 1 && (requests < c.minRequests || failures * 100 < c.failureRatio * requests)
    {
      if trial {
        changed := FinishTrial(c, failed, now);
        return;
      }
      if !circuit.Closed? {
        return None;
      }
      Count(c.window, failed, now);
      if requests < c.minRequests || failures * 100 < c.failureRatio * requests {
        return None;
      }
      OpenCircuit(c, now);
      return Some(OpenState);
    }

    method FinishTrial(c: Config, failed: bool, now: nat) returns (changed: Option<CircuitState>)
      modifies this
      ensures (State(), changed) == Recorded(c, old(State()), true, failed, now)
      ensures old(circuit).HalfOpen? ==> forall t: nat :: Blocks(State(), t) <==> failed && t < now + c.openDuration
      ensures changed.None? <==> !old(circuit).HalfOpen?
      ensures changed.None? ==> State() == old(State())
      ensures changed.Some? ==> changed.value == if failed then OpenState else ClosedState
      ensures changed.Some? ==> windowStart.None? && requests == 0 && failures == 0
    {
      if !circuit.HalfOpen? {
        return None;
      }
      if failed {
        OpenCircuit(c, now);
        return Some(OpenState);
      }
      circuit, windowStart, requests, failures := Closed, None, 0, 0;
      return Some(ClosedState);
    }

    method Count(window: nat, failed: bool, now: nat)
      modifies this
      ensures State() == Counted(old(State()), window, failed, now)
      ensures circuit == old(circuit) && requests >= 1
      ensures var start := old(windowStart);
        if start.Some? && window > 0 && now < start.value + window then
          && windowStart == start
          && requests == (if old(requests) < 0xFFFF_FFFF then old(requests) + 1 else 0xFFFF_FFFF)
          && failures == (if !failed then old(failures)
                          else if old(failures) < 0xFFFF_FFFF then old(failures) + 1 else 0xFFFF_FFFF)
        else windowStart == Some(now) && requests == 1 && failures == if failed then 1 else 0
      ensures old(failures) <= old(requests) <= MAX_U32 ==> failures <= requests <= MAX_U32
    {
      if windowStart.None? || Elapsed(now, windowStart.value) >= window {
        windowStart, requests, failures := Some(now), 0, 0;
      }
      requests := SaturatingInc(requests);
      if failed {
        failures := SaturatingInc(failures);
      }
    }

    method OpenCircuit(c: Config, now: nat)
      modifies this
      ensures State() == Opened(c, now)
      ensures forall t: nat :: Blocks(State(), t) <==> t < now + c.openDuration
      ensures windowStart.None? && requests == 0 && failures == 0
    {
      circuit, windowStart, requests, failures := Open(now + c.openDuration), None, 0, 0;
    }

    method ReleaseTrial()
      modifies this
      ensures State() == Released(old(State()))
      ensures old(circuit) == HalfOpen(true) ==> forall t: nat :: Admitted(State(), t).1 == Some(true)
      ensures old(circuit) != HalfOpen(true) ==> State() == old(State())
    {
      if circuit == HalfOpen(true) {
        circuit := HalfOpen(false);
      }
    }
  }

  // ---- What opens a closed circuit

  datatype Outcome = Outcome(failed: bool, now: nat)

  /** The outcomes of the current window: it starts with an outcome and takes every outcome that
      comes less than a window after its start. */
  function Window(c: Config, os: seq<Outcome>): seq<Outcome> {
    if os == [] then []
    else
      var before, last := Window(c, os[..|os| - 1]), os[|os| - 1];
      if before == [] || Elapsed(last.now, before[0].now) >= c.window then [last] else before + [last]
  }

  function Failures(os: seq<Outcome>): nat {
    if os == [] then 0 else Failures(os[..|os| - 1]) + if os[|os| - 1].failed then 1 else 0
  }

  /** A count in 32 bits. */
  function Sat(n: nat): nat {
    if n < MAX_U32 then n else MAX_U32
  }

  /** The share of failed outcomes is at least the configured percentage of enough outcomes, counting no
      further than 32 bits. */
  predicate TooManyFailures(c: Config, os: seq<Outcome>) {
    Sat(|os|) >= c.minRequests && Sat(Failures(os)) * 100 >= c.failureRatio * Sat(|os|)
  }

  /** A closed breaker after the outcomes, as long as none of them opened it. */
  function Closing(c: Config, os: seq<Outcome>): Breaker {
    if os == [] then FRESH
    else Recorded(c, Closing(c, os[..|os| - 1]), false, os[|os| - 1].failed, os[|os| - 1].now).0
  }

  ghost predicate StaysClosed(c: Config, os: seq<Outcome>) {
    forall n :: 0 < n <= |os| ==> !TooManyFailures(c, Window(c, os[..n]))
  }

  ghost predicate Tallies(b: Breaker, w: seq<Outcome>) {
    && b.circuit.Closed?
    && b.requests == Sat(|w|) && b.failures == Sat(Failures(w))
    && b.windowStart == (if w == [] then None else Some(w[0].now))
  }

  lemma TallyStep(c: Config, b: Breaker, os: seq<Outcome>, o: Outcome)
    requires Tallies(b, Window(c, os))
    ensures Tallies(Counted(b, c.window, o.failed, o.now), Window(c, os + [o]))
  {
    NextWindow(c, os, o);
    TallyIn(c, b, Window(c, os), o);
  }

  /** The window after one more outcome. */
  function Grown(c: Config, w: seq<Outcome>, o: Outcome): seq<Outcome> {
    if w == [] || Elapsed(o.now, w[0].now) >= c.window then [o] else w + [o]
  }

  lemma NextWindow(c: Config, os: seq<Outcome>, o: Outcome)
    ensures Window(c, os + [o]) == Grown(c, Window(c, os), o)
  {
    assert (os + [o])[..|os|] == os;
  }

  lemma FailuresGrow(w: seq<Outcome>, o: Outcome)
    ensures Failures(w + [o]) == Failures(w) + if o.failed then 1 else 0
  {
    assert (w + [o])[..|w|] == w;
  }

  lemma TallyIn(c: Config, b: Breaker, w: seq<Outcome>, o: Outcome)
    requires Tallies(b, w)
    ensures Tallies(Counted(b, c.window, o.failed, o.now), Grown(c, w, o))
  {
    if w == [] || Elapsed(o.now, w[0].now) >= c.window {
      TallyFirst(c, b, o);
    } else {
      TallyMore(c, b, w, o);
    }
  }

  lemma TallyFirst(c: Config, b: Breaker, o: Outcome)
    requires b.circuit.Closed? && (b.windowStart.None? || Elapsed(o.now, b.windowStart.value) >= c.window)
    ensures Tallies(Counted(b, c.window, o.failed, o.now), [o])
  {
    assert [] + [o] == [o];
    FailuresGrow([], o);
  }

  lemma TallyMore(c: Config, b: Breaker, w: seq<Outcome>, o: Outcome)
    requires Tallies(b, w) && w != [] && Elapsed(o.now, w[0].now) < c.window
    ensures Tallies(Counted(b, c.window, o.failed, o.now), w + [o])
  {
    FailuresGrow(w, o);
    assert (w + [o])[0] == w[0];
  }

  /** The counters of a closed breaker are those of the current window of outcomes. */
  lemma {:induction false} CountersTally(c: Config, os: seq<Outcome>)
    requires StaysClosed(c, os)
    ensures Tallies(Closing(c, os), Window(c, os))
  {
    if os != [] {
      var n := |os| - 1;
      forall k | 0 < k <= n ensures !TooManyFailures(c, Window(c, os[..n][..k])) {
        assert os[..n][..k] == os[..k];
      }
      CountersTally(c, os[..n]);
      TallyStep(c, Closing(c, os[..n]), os[..n], os[n]);
      assert os[..n] + [os[n]] == os == os[..|os|];
    }
  }

  /** A closed circuit opens with the outcome that brings the current window to the configured share
      of failures, and with no other. */
  lemma OpensExactlyAtTheRatio(c: Config, os: seq<Outcome>, o: Outcome)
    requires StaysClosed(c, os)
    ensures Recorded(c, Closing(c, os), false, o.failed, o.now).1 ==
            if TooManyFailures(c, Window(c, os + [o])) then Some(OpenState) else None
  {
    CountersTally(c, os);
    TallyStep(c, Closing(c, os), os, o);
  }

  lemma {:induction false} FailuresBound(os: seq<Outcome>)
    ensures Failures(os) <= |os|
  {
    if os != [] {
      FailuresBound(os[..|os| - 1]);
    }
  }

  /** On a window that 32 bits can count, that share is the real one. */
  lemma SmallWindowsAreCounted(c: Config, w: seq<Outcome>)
    requires |w| <= MAX_U32
    ensures TooManyFailures(c, w) <==> |w| >= c.minRequests && Failures(w) * 100 >= c.failureRatio * |w|
  {
    FailuresBound(w);
  }
}
