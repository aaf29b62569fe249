/** The adaptive stream controller in every interleaving: each `fetch_add` and `fetch_sub` is one
    step, and any number of calls can be between two of their steps. */
module StreamCounters {

  datatype Class = Critical | Normal | Background

  function ClassOf(urgency: nat): Class {
    if urgency <= 2 then Critical else if urgency >= 5 then Background else Normal
  }

  /** A call between two of its steps, or a permit that is held. */
  datatype Task =
    | Recording(class_: Class)
    | Acquiring
    | Held(background: bool)
    | Dropping

  datatype World = World(total: int, critical: int, normal: int, background: int,
                         active: int, activeBackground: int, tasks: map<nat, Task>)

  /** Nothing counted and no call under way. */
  ghost predicate Idle(w: World) {
    && w.total == w.critical == w.normal == w.background == w.active == w.activeBackground == 0
    && forall id :: id !in w.tasks
  }

  datatype Action =
    | AddTotal(id: nat, urgency: nat)
    | AddClass(id: nat)
    | AddActive(id: nat, urgency: nat)
    | AddActiveBackground(id: nat)
    | SubActive(id: nat)
    | SubActiveBackground(id: nat)

  predicate Can(w: World, a: Action) {
    match a
    case AddTotal(id, _) => id !in w.tasks
    case AddClass(id) => id in w.tasks && w.tasks[id].Recording?
    case AddActive(id, _) => id !in w.tasks
    case AddActiveBackground(id) => id in w.tasks && w.tasks[id].Acquiring?
    case SubActive(id) => id in w.tasks && w.tasks[id].Held?
    case SubActiveBackground(id) => id in w.tasks && w.tasks[id].Dropping?
  }

  function Next(w: World, a: Action): World
    requires Can(w, a)
  {
    match a
    case AddTotal(id, urgency) =>
      w.(total := w.total + 1, tasks := w.tasks[id := Recording(ClassOf(urgency))])
    case AddClass(id) =>
      var w' := w.(tasks := w.tasks - {id});
      (match w.tasks[id].class_
       case Critical => w'.(critical := w.critical + 1)
       case Normal => w'.(normal := w.normal + 1)
       case Background => w'.(background := w.background + 1))
    case AddActive(id, urgency) =>
      // The permit of a stream that is not in the background is complete after this step.
      w.(active := w.active + 1,
         tasks := w.tasks[id := if ClassOf(urgency) == Background then Acquiring else Held(false)])
    case AddActiveBackground(id) =>
      w.(activeBackground := w.activeBackground + 1, tasks := w.tasks[id := Held(true)])
    case SubActive(id) =>
      w.(active := w.active - 1,
         tasks := if w.tasks[id].background then w.tasks[id := Dropping] else w.tasks - {id})
    case SubActiveBackground(id) =>
      w.(activeBackground := w.activeBackground - 1, tasks := w.tasks - {id})
  }

  /** What a task under way accounts for: a class still to be counted, an active stream, an active
      background stream, or a permit of a background stream. */
  datatype Share = Uncounted(class_: Class) | Active | ActiveBackground | BackgroundPermit

  predicate Has(t: Task, s: Share) {
    match s
    case Uncounted(c) => t == Recording(c)
    case Active => t.Acquiring? || t.Held?
    case ActiveBackground => t == Held(true) || t.Dropping?
    case BackgroundPermit => t.Acquiring? || t == Held(true) || t.Dropping?
  }

  function Sharing(tasks: map<nat, Task>, s: Share): set<nat> {
    set id | id in tasks && Has(tasks[id], s)
  }

  function One(b: bool): nat { if b then 1 else 0 }

  lemma Put(tasks: map<nat, Task>, id: nat, t: Task, s: Share)
    ensures |Sharing(tasks[id := t], s)|
         == |Sharing(tasks, s)| + One(Has(t, s)) - One(id in tasks && Has(tasks[id], s))
  {
    Drop(tasks[id := t], id, s);
    var rest := tasks - {id};
    assert tasks[id := t] - {id} == rest;
    if id in tasks {
      Drop(tasks, id, s);
    } else {
      assert rest == tasks;
    }
  }

  lemma Drop(tasks: map<nat, Task>, id: nat, s: Share)
    requires id in tasks
    ensures |Sharing(tasks - {id}, s)| == |Sharing(tasks, s)| - One(Has(tasks[id], s))
  {
    var all, rest := Sharing(tasks, s), Sharing(tasks - {id}, s);
    var fewer := tasks - {id};
    assert forall k :: k in fewer <==> k in tasks && k != id;
    assert forall k :: k in rest <==> k in all && k != id;
    if Has(tasks[id], s) {
      assert rest == all - {id};
    } else {
      assert rest == all;
    }
  }

  /** The class's counter and the calls still to be counted there. */
  function Counted(w: World, c: Class): int {
    var counter := match c case Critical => w.critical case Normal => w.normal case Background => w.background;
    counter + |Sharing(w.tasks, Uncounted(c))|
  }

  /** Each counter is what the calls and permits under way account for. */
  ghost predicate Accounted(w: World) {
    && w.total == Counted(w, Critical) + Counted(w, Normal) + Counted(w, Background)
    && w.active == |Sharing(w.tasks, Active)|
    && w.activeBackground == |Sharing(w.tasks, ActiveBackground)|
  }

  /** A step changes the share of its own task only. */
  lemma StepShare(w: World, a: Action, s: Share)
    requires Can(w, a)
    ensures var t, t' := w.tasks, Next(w, a).tasks;
      |Sharing(t', s)| == |Sharing(t, s)| + One(a.id in t' && Has(t'[a.id], s)) - One(a.id in t && Has(t[a.id], s))
  {
    var t, t' := w.tasks, Next(w, a).tasks;
    if a.id in t' {
      assert t' == t[a.id := t'[a.id]];
      Put(t, a.id, t'[a.id], s);
    } else {
      assert t' == t - {a.id};
      Drop(t, a.id, s);
    }
  }

  lemma StepKeepsAccount(w: World, a: Action)
    requires Accounted(w) && Can(w, a)
    ensures Accounted(Next(w, a))
  {
    StepShare(w, a, Uncounted(Critical));
    StepShare(w, a, Uncounted(Normal));
    StepShare(w, a, Uncounted(Background));
    StepShare(w, a, Active);
    StepShare(w, a, ActiveBackground);
  }

  ghost predicate IsRun(w: World, acts: seq<Action>)
    decreases |acts|
  {
    acts != [] ==> Can(w, acts[0]) && IsRun(Next(w, acts[0]), acts[1..])
  }

  ghost function After(w: World, acts: seq<Action>): World
    requires IsRun(w, acts)
    decreases |acts|
  {
    if acts == [] then w else After(Next(w, acts[0]), acts[1..])
  }

  lemma {:induction false} RunKeepsAccount(w: World, acts: seq<Action>)
    requires Accounted(w) && IsRun(w, acts)
    ensures Accounted(After(w, acts))
    decreases |acts|
  {
    if acts != [] {
      StepKeepsAccount(w, acts[0]);
      RunKeepsAccount(Next(w, acts[0]), acts[1..]);
    }
  }

  /** No call is between two of its steps. */
  ghost predicate Quiescent(w: World) {
    forall id :: id in w.tasks ==> w.tasks[id].Held?
  }

  /** The active counters are the numbers of held permits and the classes add up to the total. */
  ghost predicate Settled(w: World) {
    && w.active == |w.tasks|
    && w.activeBackground == |set id | id in w.tasks && w.tasks[id].Held? && w.tasks[id].background|
    && w.total == w.critical + w.normal + w.background
  }

  /** In every interleaving no counter goes below zero, and whenever no call is under way all counters
      are settled. */
  lemma {:induction false} CountersInEveryRun(idle: World, acts: seq<Action>)
    requires Idle(idle) && IsRun(idle, acts)
    ensures var w := After(idle, acts);
      && w.active >= 0 && w.activeBackground >= 0 && w.total >= w.critical + w.normal + w.background
      && (Quiescent(w) ==> Settled(w))
  {
    IdleIsAccounted(idle);
    RunKeepsAccount(idle, acts);
    AccountSettles(After(idle, acts));
  }

  lemma AccountSettles(w: World)
    requires Accounted(w)
    ensures w.active >= 0 && w.activeBackground >= 0 && w.total >= w.critical + w.normal + w.background
    ensures Quiescent(w) ==> Settled(w)
  {
    if Quiescent(w) { QuiescentShares(w); }
  }

  lemma IdleIsAccounted(w: World)
    requires Idle(w)
    ensures Accounted(w) && |Sharing(w.tasks, BackgroundPermit)| == 0
    ensures forall c: Class :: Counted(w, c) == 0
  {
    assert forall s: Share :: Sharing(w.tasks, s) == {};
  }

  lemma QuiescentShares(w: World)
    requires Quiescent(w)
    ensures forall c: Class :: |Sharing(w.tasks, Uncounted(c))| == 0
    ensures |Sharing(w.tasks, Active)| == |w.tasks|
    ensures Sharing(w.tasks, ActiveBackground) == Sharing(w.tasks, BackgroundPermit)
    ensures Sharing(w.tasks, ActiveBackground) == set id | id in w.tasks && w.tasks[id].Held? && w.tasks[id].background
  {
    assert forall c: Class :: Sharing(w.tasks, Uncounted(c)) == {};
    assert Sharing(w.tasks, Active) == w.tasks.Keys;
  }

  // ---- The classes over a run

  /** Urgencies up to 2, 3 and 4, and from 5 on. */
  ghost predicate Within(c: Class, urgency: nat) {
    match c
    case Critical => urgency < 3
    case Normal => urgency == 3 || urgency == 4
    case Background => urgency > 4
  }

  /** How many calls of the run record a stream of the class. */
  ghost function Recorded(acts: seq<Action>, c: Class): nat {
    if acts == [] then 0
    else
      var n := |acts| - 1;
      Recorded(acts[..n], c) + One(acts[n].AddTotal? && Within(c, acts[n].urgency))
  }

  /** How many permits of background streams the run takes, less those it has given back in full. */
  ghost function Outstanding(acts: seq<Action>): int {
    if acts == [] then 0
    else
      var n := |acts| - 1;
      Outstanding(acts[..n])
      + One(acts[n].AddActive? && Within(Background, acts[n].urgency)) - One(acts[n].SubActiveBackground?)
  }

  lemma {:induction false} LastStep(w: World, acts: seq<Action>)
    requires IsRun(w, acts) && acts != []
    ensures var n := |acts| - 1;
      IsRun(w, acts[..n]) && Can(After(w, acts[..n]), acts[n])
      && After(w, acts) == Next(After(w, acts[..n]), acts[n])
    decreases |acts|
  {
    var n := |acts| - 1;
    if n > 0 {
      LastStep(Next(w, acts[0]), acts[1..]);
      assert acts[1..][..n - 1] == acts[..n][1..];
    }
  }

  lemma {:induction false} RunCounts(w: World, acts: seq<Action>, c: Class)
    requires IsRun(w, acts)
    ensures Counted(After(w, acts), c) == Counted(w, c) + Recorded(acts, c)
    ensures |Sharing(After(w, acts).tasks, BackgroundPermit)|
         == |Sharing(w.tasks, BackgroundPermit)| + Outstanding(acts)
    decreases |acts|
  {
    if acts != [] {
      var n := |acts| - 1;
      LastStep(w, acts);
      RunCounts(w, acts[..n], c);
      StepCounts(After(w, acts[..n]), acts[n], c);
    }
  }

  lemma StepCounts(w: World, a: Action, c: Class)
    requires Can(w, a)
    ensures Counted(Next(w, a), c) == Counted(w, c) + One(a.AddTotal? && Within(c, a.urgency))
    ensures |Sharing(Next(w, a).tasks, BackgroundPermit)|
         == |Sharing(w.tasks, BackgroundPermit)|
            + One(a.AddActive? && Within(Background, a.urgency)) - One(a.SubActiveBackground?)
  {
    StepShare(w, a, Uncounted(c));
    StepShare(w, a, BackgroundPermit);
  }

  /** In every interleaving, whenever no call is under way, each class has counted exactly the streams
      recorded with its urgencies, and the active background counter is the number of permits taken with
      an urgency from 5 on and not given back. */
  lemma {:induction false} ClassesInEveryRun(idle: World, acts: seq<Action>)
    requires Idle(idle) && IsRun(idle, acts)
    ensures var w := After(idle, acts);
      Quiescent(w) ==>
        && w.critical == Recorded(acts, Critical) && w.normal == Recorded(acts, Normal)
        && w.background == Recorded(acts, Background)
        && w.activeBackground == Outstanding(acts)
  {
    IdleIsAccounted(idle);
    RunKeepsAccount(idle, acts);
    RunCounts(idle, acts, Critical);
    RunCounts(idle, acts, Normal);
    RunCounts(idle, acts, Background);
    QuiescentCounts(After(idle, acts));
  }

  lemma QuiescentCounts(w: World)
    requires Accounted(w)
    ensures Quiescent(w) ==>
      && w.critical == Counted(w, Critical) && w.normal == Counted(w, Normal) && w.background == Counted(w, Background)
      && w.activeBackground == |Sharing(w.tasks, BackgroundPermit)|
  {
    if Quiescent(w) { QuiescentShares(w); }
  }
}
