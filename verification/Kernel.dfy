/** The scheduler, any number of semaphores, and sleeping tasks together. What `Scheduling` takes for granted is proved
    here: nobody ever wakes the running task. */
module Kernel {
  import opened Basics
  import opened Scheduling
  import Semaphores

  type Sem = Semaphores.State

  /** A task is inside at most one semaphore operation at a time. */
  datatype System = System(snap: Snapshot, sems: seq<Sem>, sleeping: set<nat>)
  {
    function Me(): nat { snap.current }

    function Count(): nat { |snap.tasks| }
  }

  /** What the running task does next, or what interrupts it. */
  datatype Act =
    | Enter(sem: nat, op: Semaphores.Op)
    | TryOnce(sem: nat, op: Semaphores.Op)
    | Continue(sem: nat, dt: nat)
    | Sleep(dt: nat)
    | Timer(task: nat)
    | Tick(dt: nat)
    | Yield(dt: nat)
    | Spawn

  // ---- the invariant -----------------------------------------------------

  ghost predicate SemsOk(k: System) {
    forall m: nat | m < |k.sems| :: Semaphores.Inv(k.sems[m]) && |k.sems[m].pcs| == k.Count()
  }

  /** The task is in no semaphore operation, except perhaps on semaphore `n`. */
  predicate OnlyIn(k: System, t: nat, n: int) {
    forall m: nat | m < |k.sems| && m != n :: t < |k.sems[m].pcs| && k.sems[m].pcs[t] == Semaphores.Outside
  }

  ghost predicate BlockedIn(k: System, t: nat) {
    exists m: nat :: m < |k.sems| && t < |k.sems[m].pcs| && k.sems[m].pcs[t].Blocked?
  }

  /** A task is runnable unless it sleeps or is blocked on a semaphore. */
  ghost predicate TaskOk(k: System, t: nat)
    requires t < k.Count()
  {
    && (k.snap.tasks[t].runnable <==> t !in k.sleeping && !BlockedIn(k, t))
    && (exists n: int :: OnlyIn(k, t, n))
    && (t in k.sleeping ==> OnlyIn(k, t, -1))
  }

  /** Task 0 is in no operation, and the running task is runnable. */
  ghost predicate Ok(k: System) {
    && SemsOk(k) && (forall t: nat | t < k.Count() :: TaskOk(k, t))
    && k.Me() < k.Count() && k.snap.tasks[k.Me()].runnable
    && OnlyIn(k, 0, -1) && 0 !in k.sleeping
    && (forall t | t in k.sleeping :: t < k.Count())
  }

  /** With task 0 alone, and unused semaphores. */
  lemma Starts(now: nat, sems: seq<Sem>)
    requires forall m: nat | m < |sems| ::
      && sems[m].waiting == sems[m].releasing == [] && sems[m].pcs == [Semaphores.Outside]
      && 0 <= sems[m].count <= sems[m].max
    ensures Ok(System(Snapshot([Info(true, now, 0, 0)], 0), sems, {}))
  {
    var k := System(Snapshot([Info(true, now, 0, 0)], 0), sems, {});
    assert OnlyIn(k, 0, -1);
  }

  // ---- the acts ----------------------------------------------------------

  /** Task 0 neither sleeps nor waits; a task enters one operation at a time; a timer wakes a sleeping task. */
  predicate Enabled(k: System, a: Act) {
    match a
    case Enter(m, _) => m < |k.sems| && k.Me() != 0 && OnlyIn(k, k.Me(), -1)
    case TryOnce(m, _) => m < |k.sems| && k.Me() != 0 && OnlyIn(k, k.Me(), -1)
    case Continue(m, _) =>
      m < |k.sems| && k.Me() < |k.sems[m].pcs| && k.sems[m].pcs[k.Me()] != Semaphores.Outside
    case Sleep(_) => k.Me() != 0 && OnlyIn(k, k.Me(), -1)
    case Timer(t) => t in k.sleeping
    case _ => true
  }

  function Move(k: System, a: Act): Semaphores.Move
    requires a.Enter? || a.TryOnce? || a.Continue?
  {
    match a
    case Enter(_, op) => Semaphores.Enter(k.Me(), op)
    case TryOnce(_, op) => Semaphores.TryOnce(k.Me(), op)
    case Continue(_, _) => Semaphores.Continue(k.Me())
  }

  function SemsAfter(k: System, a: Act): seq<Sem> {
    match a
    case Spawn => seq(|k.sems|, m requires 0 <= m < |k.sems| => Semaphores.Grown(k.sems[m]))
    case Sleep(_) => k.sems
    case Timer(_) => k.sems
    case Tick(_) => k.sems
    case Yield(_) => k.sems
    case _ => if a.sem < |k.sems| then k.sems[a.sem := Semaphores.Step(k.sems[a.sem], Move(k, a))] else k.sems
  }

  function SleepingAfter(k: System, a: Act): set<nat> {
    if a.Sleep? then k.sleeping + {k.Me()} else if a.Timer? then k.sleeping - {a.task} else k.sleeping
  }

  /** What the scheduler is told, if anything. */
  function Told(k: System, a: Act): Option<Event> {
    match a
    case Tick(dt) => Some(Event.Tick(dt))
    case Yield(dt) => Some(Event.Yield(dt))
    case Spawn => Some(Event.Spawn)
    case Sleep(dt) => Some(BlockSelf(dt))
    case Timer(t) => Some(WakeUp(t))
    case Continue(m, dt) =>
      if m < |k.sems| && k.Me() < |k.sems[m].pcs| then
        match k.sems[m].pcs[k.Me()]
        case Trying(op, _) => if k.sems[m].Level(op) > 0 then None else Some(BlockSelf(dt))
        case Waking(_, t) => Some(WakeUp(t))
        case _ => None
      else None
    case _ => None
  }

  /** Nobody wakes the running task: who is woken is asleep or blocked, and who wakes is neither. */
  lemma NeverWakesRunning(k: System, a: Act)
    requires Ok(k) && Enabled(k, a)
    ensures Told(k, a) != Some(WakeUp(k.Me()))
    ensures Told(k, a).Some? && Told(k, a).value.WakeUp? ==>
              Told(k, a).value.id < k.Count() && !k.snap.tasks[Told(k, a).value.id].runnable
  {
    var me := k.Me();
    assert TaskOk(k, me);
    if a.Continue? && k.sems[a.sem].pcs[me].Waking? {
      var s := k.sems[a.sem];
      var t := s.pcs[me].task;
      assert Semaphores.WakerOk(s, me);
      assert s.pcs[t].Blocked?;
      assert TaskOk(k, t) && BlockedIn(k, t);
    } else if a.Timer? {
      assert TaskOk(k, a.task);
    }
  }

  ghost predicate Steps(k: System, a: Act, now: nat, k': System) {
    && k'.sems == SemsAfter(k, a) && k'.sleeping == SleepingAfter(k, a)
    && match Told(k, a)
       case Some(e) => Follows(k.snap, e, now, k'.snap)
       case None => k'.snap == k.snap
  }

  // ---- what every act keeps ----------------------------------------------

  /** Who is runnable after an event, and that the running task is. */
  lemma Flags(s: Snapshot, e: Event, now: nat, s': Snapshot)
    requires s.current < |s.tasks| && s.tasks[0].runnable && s.tasks[s.current].runnable && Follows(s, e, now, s')
    requires e.BlockSelf? ==> s.current != 0
    ensures |s'.tasks| == |s.tasks| + (if e.Spawn? then 1 else 0)
    ensures s'.current < |s'.tasks| && s'.tasks[s'.current].runnable
    ensures forall t: nat | t < |s'.tasks| ::
              s'.tasks[t].runnable ==
                if e.BlockSelf? && t == s.current then false
                else (e.WakeUp? && t == e.id) || t >= |s.tasks| || s.tasks[t].runnable
  {
    if Ends(s, e, now) {
      var tasks := Candidates(s, e);
      assert tasks[0].runnable;
      ChargedRunnable(tasks, s.current, now);
      assert !NoneRunnable(tasks);
    }
  }

  lemma SemsKeep(k: System, a: Act, k': System)
    requires Ok(k) && |k'.snap.tasks| == k.Count() + (if a.Spawn? then 1 else 0) && k'.sems == SemsAfter(k, a)
    ensures SemsOk(k')
  {
    hide Semaphores.Inv, Semaphores.Step;
    forall m: nat | m < |k'.sems| ensures Semaphores.Inv(k'.sems[m]) && |k'.sems[m].pcs| == k'.Count() {
      assert Semaphores.Inv(k.sems[m]) && |k.sems[m].pcs| == k.Count();
      if a.Spawn? {
        Semaphores.GrownKeeps(k.sems[m]);
      } else if (a.Enter? || a.TryOnce? || a.Continue?) && m == a.sem {
        Semaphores.StepKeeps(k.sems[m], Move(k, a));
      }
    }
  }

  /** A task whose places and flag did not change. */
  lemma TaskSame(k: System, k': System, t: nat)
    requires t < k.Count() <= k'.Count() && SemsOk(k) && SemsOk(k') && TaskOk(k, t) && |k'.sems| == |k.sems|
    requires forall m: nat | m < |k.sems| :: k'.sems[m].pcs[t] == k.sems[m].pcs[t]
    requires k'.snap.tasks[t].runnable == k.snap.tasks[t].runnable && (t in k'.sleeping <==> t in k.sleeping)
    ensures TaskOk(k', t)
  {
    assert BlockedIn(k', t) <==> BlockedIn(k, t) by {
      if m: nat :| m < |k.sems| && t < |k.sems[m].pcs| && k.sems[m].pcs[t].Blocked? {
        assert k'.sems[m].pcs[t].Blocked?;
      }
      if m: nat :| m < |k.sems| && t < |k'.sems[m].pcs| && k'.sems[m].pcs[t].Blocked? {
        assert k.sems[m].pcs[t].Blocked?;
      }
    }
    var n: int :| OnlyIn(k, t, n);
    assert OnlyIn(k', t, n);
    assert OnlyIn(k, t, -1) ==> OnlyIn(k', t, -1);
  }

  /** A task that is in semaphore `n` at most. */
  lemma TaskMoved(k': System, t: nat, n: nat)
    requires t < k'.Count() && SemsOk(k') && n < |k'.sems| && OnlyIn(k', t, n) && t !in k'.sleeping
    requires k'.snap.tasks[t].runnable <==> !k'.sems[n].pcs[t].Blocked?
    ensures TaskOk(k', t)
  {
    assert BlockedIn(k', t) <==> k'.sems[n].pcs[t].Blocked?;
  }

  /** Where each task is after an act: only the running task and one that it wakes have moved. */
  lemma PlacesAfter(k: System, a: Act, m: nat, t: nat)
    requires Ok(k) && Enabled(k, a) && m < |k.sems| && t < k.Count()
    ensures |SemsAfter(k, a)| == |k.sems| && t < |SemsAfter(k, a)[m].pcs|
    ensures
      var was, now := k.sems[m].pcs, SemsAfter(k, a)[m].pcs;
      && t < |was|
      && (now[t] != was[t] ==> (a.Enter? || a.TryOnce? || a.Continue?) && m == a.sem)
      && (now[t] != was[t] && t != k.Me() ==> Told(k, a) == Some(WakeUp(t)) && was[t].Blocked? && !now[t].Blocked?)
      && ((a.Enter? || a.TryOnce? || a.Continue?) && m == a.sem ==>
            && (Told(k, a) == Some(WakeUp(t)) ==> was[t].Blocked? && !now[t].Blocked?)
            && (t == k.Me() ==> (now[t].Blocked? <==> Told(k, a).Some? && Told(k, a).value.BlockSelf?)))
  {
    hide Semaphores.Inv, Semaphores.Step;
    assert TaskOk(k, k.Me());
    assert Semaphores.Inv(k.sems[m]) && |k.sems[m].pcs| == k.Count();
    assert !k.sems[m].pcs[k.Me()].Blocked?;
    if (a.Enter? || a.TryOnce? || a.Continue?) && m == a.sem {
      Semaphores.StepMoves(k.sems[m], Move(k, a));
    }
  }

  /** The events that the scheduler is told of meet its conditions. */
  lemma ToldFacts(k: System, a: Act)
    requires Ok(k) && Enabled(k, a)
    ensures Told(k, a).Some? && Told(k, a).value.BlockSelf? ==> k.Me() != 0
    ensures k.snap.tasks[0].runnable
    ensures Told(k, a).Some? && Told(k, a).value.Spawn? <==> a.Spawn?
  {
    assert TaskOk(k, 0) && !BlockedIn(k, 0);
    assert a.Continue? ==> k.sems[a.sem].pcs[0] == Semaphores.Outside;
  }

  /** The flag that the task has after the act. */
  ghost predicate FlagAfter(k: System, a: Act, k': System, t: nat)
    requires t < k.Count() <= k'.Count()
  {
    k'.snap.tasks[t].runnable ==
      if Told(k, a).Some? && Told(k, a).value.BlockSelf? && t == k.Me() then false
      else Told(k, a) == Some(WakeUp(t)) || k.snap.tasks[t].runnable
  }

  /** An act on a semaphore. */
  lemma MovedTask(k: System, a: Act, k': System, t: nat)
    requires Ok(k) && Enabled(k, a) && (a.Enter? || a.TryOnce? || a.Continue?)
    requires k'.sems == SemsAfter(k, a) && k'.sleeping == k.sleeping && SemsOk(k')
    requires t < k.Count() <= k'.Count() && FlagAfter(k, a, k', t)
    ensures TaskOk(k', t)
  {
    hide Semaphores.Inv, Semaphores.Step, SemsAfter, Told, SemsOk;
    var n := a.sem;
    assert TaskOk(k, t) && SemsOk(k);
    NeverWakesRunning(k, a);
    forall m: nat | m < |k.sems|
      ensures |k'.sems| == |k.sems| && t < |k.sems[m].pcs| && t < |k'.sems[m].pcs|
      ensures m != n ==> k'.sems[m].pcs[t] == k.sems[m].pcs[t]
    {
      PlacesAfter(k, a, m, t);
    }
    PlacesAfter(k, a, n, t);
    if k'.sems[n].pcs[t] == k.sems[n].pcs[t] && !(Told(k, a) == Some(WakeUp(t))) && t != k.Me() {
      TaskSame(k, k', t);
    } else {
      MovesAlone(k, a, t);
      assert OnlyIn(k', t, n);
      TaskMoved(k', t, n);
    }
  }

  /** A task that moves is in no other semaphore, and does not sleep. */
  lemma MovesAlone(k: System, a: Act, t: nat)
    requires Ok(k) && Enabled(k, a) && (a.Enter? || a.TryOnce? || a.Continue?)
    requires t < k.Count() && (t == k.Me() || Told(k, a) == Some(WakeUp(t)))
    ensures t !in k.sleeping && OnlyIn(k, t, a.sem)
  {
    assert TaskOk(k, t) && SemsOk(k);
    var n: int :| OnlyIn(k, t, n);
    if t != k.Me() {
      var s := k.sems[a.sem];
      assert Semaphores.WakerOk(s, k.Me());
      assert s.pcs[t].Blocked?;
    }
  }

  /** Any other act. */
  lemma RestingTask(k: System, a: Act, k': System, t: nat)
    requires Ok(k) && Enabled(k, a) && !(a.Enter? || a.TryOnce? || a.Continue?)
    requires k'.sems == SemsAfter(k, a) && k'.sleeping == SleepingAfter(k, a) && SemsOk(k')
    requires t < k.Count() <= k'.Count() && FlagAfter(k, a, k', t)
    ensures TaskOk(k', t)
  {
    hide Semaphores.Inv, Semaphores.Step;
    assert TaskOk(k, t);
    if (a.Sleep? && t == k.Me()) || (a.Timer? && t == a.task) {
      assert OnlyIn(k, t, -1) && OnlyIn(k', t, -1) && !BlockedIn(k', t);
    } else {
      TaskSame(k, k', t);
    }
  }

  /** A task that has just been created. */
  lemma NewTask(k: System, a: Act, k': System, t: nat)
    requires Ok(k) && a.Spawn? && k'.sems == SemsAfter(k, a) && k'.sleeping == k.sleeping
    requires t == k.Count() < k'.Count() && k'.snap.tasks[t].runnable
    ensures TaskOk(k', t)
  {
    assert SemsOk(k);
    assert OnlyIn(k', t, -1) && !BlockedIn(k', t);
  }

  lemma IdleKeeps(k: System, a: Act, k': System)
    requires Ok(k) && Enabled(k, a) && k'.sems == SemsAfter(k, a) && k'.sleeping == SleepingAfter(k, a)
    ensures OnlyIn(k', 0, -1) && 0 !in k'.sleeping
  {
    hide Semaphores.Inv, Semaphores.Step, SemsAfter, Told;
    ToldFacts(k, a);
    NeverWakesRunning(k, a);
    forall m: nat | m < |k'.sems| ensures 0 < |k'.sems[m].pcs| && k'.sems[m].pcs[0] == Semaphores.Outside {
      SemCount(k, a);
      PlacesAfter(k, a, m, 0);
    }
  }

  lemma SemCount(k: System, a: Act)
    ensures |SemsAfter(k, a)| == |k.sems|
  {
  }

  /** Every act keeps the invariant. */
  lemma StepKeeps(k: System, a: Act, now: nat, k': System)
    requires Ok(k) && Enabled(k, a) && Steps(k, a, now, k')
    ensures Ok(k')
  {
    hide Semaphores.Inv, Semaphores.Step, Follows, SemsAfter, Told, SemsOk, TaskOk;
    ToldFacts(k, a);
    var told := Told(k, a);
    if told.Some? {
      Flags(k.snap, told.value, now, k'.snap);
    }
    SemsKeep(k, a, k');
    IdleKeeps(k, a, k');
    forall t: nat | t < k'.Count() ensures TaskOk(k', t) {
      if t == k.Count() {
        NewTask(k, a, k', t);
      } else if a.Enter? || a.TryOnce? || a.Continue? {
        MovedTask(k, a, k', t);
      } else {
        RestingTask(k, a, k', t);
      }
    }
  }

  /** After a yield, and after a timer interrupt at the end of the slice, a runnable task of least runtime runs; an
      earlier timer interrupt changes nothing; a new task is runnable, and the running one goes on. */
  lemma WhoRunsNext(k: System, a: Act, now: nat, k': System)
    requires Ok(k) && (a.Yield? || a.Tick? || a.Spawn?) && Steps(k, a, now, k')
    ensures a.Yield? || (a.Tick? && k.snap.tasks[k.Me()].runUntil <= now) ==>
              && k'.Count() == k.Count() && k'.Me() < k'.Count() && k'.snap.tasks[k'.Me()].runnable
              && forall t: nat | t < k'.Count() && k'.snap.tasks[t].runnable ::
                   k'.snap.tasks[k'.Me()].runtime <= k'.snap.tasks[t].runtime
    ensures a.Tick? && k.snap.tasks[k.Me()].runUntil > now ==> k' == k
    ensures a.Spawn? ==>
              k'.Me() == k.Me() && k'.Count() == k.Count() + 1 && k'.snap.tasks[k.Count()].runnable
  {
    hide Semaphores.Inv, SemsOk;
    assert TaskOk(k, k.Me());
    ToldFacts(k, a);
    Flags(k.snap, Told(k, a).value, now, k'.snap);
  }

  /** A task that goes to sleep gives up the processor, and is runnable again once the timer wakes it. */
  lemma SleepAndTimer(k: System, dt: nat, now: nat, k': System, k'': System)
    requires Ok(k) && Enabled(k, Sleep(dt)) && Steps(k, Sleep(dt), now, k') && Steps(k', Timer(k.Me()), now, k'')
    ensures k'.Me() != k.Me() && k.Me() < k'.Count() && !k'.snap.tasks[k.Me()].runnable && k.Me() in k'.sleeping
    ensures k.Me() < k''.Count() && k''.snap.tasks[k.Me()].runnable && k''.sleeping == k.sleeping && k''.sems == k.sems
  {
    hide Semaphores.Inv;
    ToldFacts(k, Sleep(dt));
    Flags(k.snap, BlockSelf(dt), now, k'.snap);
    assert TaskOk(k, k.Me());
    assert k'.sleeping - {k.Me()} == k.sleeping;
  }

  /** No lost wakeup, with the scheduler: while tasks are queued and the counter admits one of them, a task that is
      about to see to it is runnable. */
  lemma HelpIsRunnable(k: System, m: nat, op: Semaphores.Op) returns (t: nat)
    requires Ok(k) && m < |k.sems| && k.sems[m].Queue(op) != [] && k.sems[m].Level(op) > 0
    ensures t < k.Count() && k.snap.tasks[t].runnable
    ensures t < |k.sems[m].pcs| && Semaphores.Helps(op)(k.sems[m].pcs[t])
  {
    assert SemsOk(k);
    var s := k.sems[m];
    t := Semaphores.SomeHelp(s.pcs, op);
    assert TaskOk(k, t);
    var n: int :| OnlyIn(k, t, n);
    assert s.pcs[t] != Semaphores.Outside;
    assert !BlockedIn(k, t);
  }

  // ---- runs --------------------------------------------------------------

  /** What the scheduler is told in this state, if the act happens. */
  function Heard(k: System, a: Act): Option<Event> { if Enabled(k, a) then Told(k, a) else None }

  function Passes(k: System, a: Act): nat { if Heard(k, a).Some? then Later(Heard(k, a).value) else 0 }

  /** The time of the scheduler before act `n`. */
  function Now(start: nat, acts: seq<Act>, trace: seq<System>, n: nat): nat
    requires n <= |acts| && n <= |trace|
  {
    if n == 0 then start else Now(start, acts, trace, n - 1) + Passes(trace[n - 1], acts[n - 1])
  }

  /** An act that is not enabled does not happen. */
  ghost predicate StepsAt(start: nat, acts: seq<Act>, trace: seq<System>, i: nat)
    requires i < |acts| && i + 1 < |trace|
  {
    if Enabled(trace[i], acts[i]) then Steps(trace[i], acts[i], Now(start, acts, trace, i + 1), trace[i + 1])
    else trace[i + 1] == trace[i]
  }

  ghost predicate IsRun(start: nat, acts: seq<Act>, trace: seq<System>) {
    |trace| == |acts| + 1 && forall i: nat | i < |acts| :: StepsAt(start, acts, trace, i)
  }

  /** At every point of every run the invariant holds, and the act that comes next does not wake the running task. */
  lemma {:induction false} RunsKeep(start: nat, acts: seq<Act>, trace: seq<System>, i: nat)
    requires IsRun(start, acts, trace) && Ok(trace[0]) && i <= |acts|
    ensures Ok(trace[i])
    ensures i < |acts| ==> Heard(trace[i], acts[i]) != Some(WakeUp(trace[i].Me()))
    decreases i
  {
    hide Ok, Steps, Enabled, Told;
    if i > 0 {
      RunsKeep(start, acts, trace, i - 1);
      assert StepsAt(start, acts, trace, i - 1);
      if Enabled(trace[i - 1], acts[i - 1]) {
        StepKeeps(trace[i - 1], acts[i - 1], Now(start, acts, trace, i), trace[i]);
      }
    }
    if i < |acts| && Enabled(trace[i], acts[i]) {
      NeverWakesRunning(trace[i], acts[i]);
    }
  }

  /** One act, with the task list of the scheduler. */
  method Perform(list: TaskList, sems: seq<Sem>, sleeping: set<nat>, a: Act, now: nat)
    returns (sems': seq<Sem>, sleeping': set<nat>)
    requires list.Inv() && Scheduled(list.tasks, now)
    requires Ok(System(Snapshot(list.tasks, list.current), sems, sleeping))
    modifies list
    ensures list.Inv() && Scheduled(list.tasks, now)
    ensures
      var k, k' := System(Snapshot(old(list.tasks), old(list.current)), sems, sleeping),
                   System(Snapshot(list.tasks, list.current), sems', sleeping');
      Ok(k') && if Enabled(k, a) then Steps(k, a, now, k') else k' == k && list.schedulable == old(list.schedulable)
  {
    hide Ok, Told, SemsAfter, Exact, Follows, Enabled;
    var k := System(Snapshot(list.tasks, list.current), sems, sleeping);
    if !Enabled(k, a) {
      return sems, sleeping;
    }
    NeverWakesRunning(k, a);
    var told := Told(k, a);
    if told.Some? {
      Happen(list, told.value, now);
    }
    sems', sleeping' := SemsAfter(k, a), SleepingAfter(k, a);
    StepKeeps(k, a, now, System(Snapshot(list.tasks, list.current), sems', sleeping'));
  }

  lemma {:induction false} NowPrefix(start: nat, acts: seq<Act>, trace: seq<System>, k: System, n: nat)
    requires n <= |acts| && n <= |trace|
    ensures Now(start, acts, trace + [k], n) == Now(start, acts, trace, n)
  {
    if n > 0 {
      NowPrefix(start, acts, trace, k, n - 1);
    }
  }

  ghost predicate ExactAt(trace: seq<System>, queues: seq<multiset<Queued>>, i: nat)
    requires i < |trace| == |queues|
  {
    Ok(trace[i]) && Exact(trace[i].snap.tasks, queues[i], trace[i].Me())
  }

  /** Any run. At every point the queue of the scheduler is exact, the running task is runnable (the fallback to task 0
      is never reached), and the semaphores are in their invariant. */
  method Run(list: TaskList, sems0: seq<Sem>, sleeping0: set<nat>, start: nat, acts: seq<Act>)
    returns (sems: seq<Sem>, sleeping: set<nat>, ghost trace: seq<System>, ghost queues: seq<multiset<Queued>>)
    requires list.Inv() && Scheduled(list.tasks, start)
    requires Ok(System(Snapshot(list.tasks, list.current), sems0, sleeping0))
    modifies list
    ensures list.Inv() && IsRun(start, acts, trace) && |queues| == |trace|
    ensures trace[0] == System(Snapshot(old(list.tasks), old(list.current)), sems0, sleeping0)
    ensures trace[|acts|] == System(Snapshot(list.tasks, list.current), sems, sleeping)
    ensures queues[0] == old(list.schedulable) && queues[|acts|] == list.schedulable
    ensures forall i: nat | i <= |acts| :: ExactAt(trace, queues, i)
  {
    hide Ok, Exact, Steps, Enabled;
    sems, sleeping := sems0, sleeping0;
    trace, queues := [System(Snapshot(list.tasks, list.current), sems, sleeping)], [list.schedulable];
    var clock: nat := start;
    for n := 0 to |acts|
      invariant list.Inv() && Scheduled(list.tasks, clock)
      invariant |trace| == |queues| == n + 1 && clock == Now(start, acts, trace, n)
      invariant (forall i: nat | i < n :: StepsAt(start, acts, trace, i))
      invariant trace[0] == System(Snapshot(old(list.tasks), old(list.current)), sems0, sleeping0)
      invariant trace[n] == System(Snapshot(list.tasks, list.current), sems, sleeping)
      invariant queues[0] == old(list.schedulable) && queues[n] == list.schedulable
      invariant forall i: nat | i <= n :: ExactAt(trace, queues, i)
    {
      assert ExactAt(trace, queues, n);
      clock := clock + Passes(System(Snapshot(list.tasks, list.current), sems, sleeping), acts[n]);
      sems, sleeping := Perform(list, sems, sleeping, acts[n], clock);
      ghost var k := System(Snapshot(list.tasks, list.current), sems, sleeping);
      ghost var trace', queues' := trace + [k], queues + [list.schedulable];
      forall i: nat | i <= n ensures StepsAt(start, acts, trace', i) && ExactAt(trace', queues', i) {
        NowPrefix(start, acts, trace, k, i + 1);
        assert ExactAt(trace, queues, i) && (i < n ==> StepsAt(start, acts, trace, i));
      }
      NowPrefix(start, acts, trace, k, n + 1);
      assert ExactAt(trace', queues', n + 1);
      trace, queues := trace', queues';
    }
  }

  // ---- the run of the scheduler ------------------------------------------

  /** The scheduler's part of the first `n` acts. */
  datatype Part = Part(events: seq<Event>, snaps: seq<Snapshot>)

  ghost function PartOf(start: nat, acts: seq<Act>, trace: seq<System>, n: nat): (p: Part)
    requires n <= |acts| < |trace|
    ensures |p.snaps| == |p.events| + 1 && p.snaps[0] == trace[0].snap
  {
    if n == 0 then Part([], [trace[0].snap])
    else
      var p, heard := PartOf(start, acts, trace, n - 1), Heard(trace[n - 1], acts[n - 1]);
      if heard.Some? then Part(p.events + [heard.value], p.snaps + [trace[n].snap]) else p
  }

  /** It is a run of the scheduler, through the same states and to the same time. */
  lemma {:induction false} SchedulerRuns(start: nat, acts: seq<Act>, trace: seq<System>, n: nat)
    requires IsRun(start, acts, trace) && Ok(trace[0]) && n <= |acts|
    ensures
      var p := PartOf(start, acts, trace, n);
      && Scheduling.IsRun(start, p.events, p.snaps) && p.snaps[|p.events|] == trace[n].snap
      && Clock(start, p.events, |p.events|) == Now(start, acts, trace, n)
      && (forall i: nat | i < |p.snaps| :: SeenBy(p.snaps[i], trace, n))
    decreases n
  {
    hide Ok, Follows, Enabled, Told, FollowsAt, Clock, SeenBy, SemsAfter, SleepingAfter;
    RunsKeep(start, acts, trace, n);
    SeenNow(trace, n);
    if n == 0 {
      EmptyRun(start, trace[0].snap);
    } else {
      SchedulerRuns(start, acts, trace, n - 1);
      SeenBefore(trace, n);
      assert StepsAt(start, acts, trace, n - 1);
      var p, heard := PartOf(start, acts, trace, n - 1), Heard(trace[n - 1], acts[n - 1]);
      if heard.Some? {
        PartStep(start, p, heard.value, trace[n].snap);
      }
    }
  }

  lemma PartStep(start: nat, p: Part, e: Event, s: Snapshot)
    requires Scheduling.IsRun(start, p.events, p.snaps)
    requires Follows(p.snaps[|p.events|], e, Clock(start, p.events, |p.events|) + Later(e), s)
    ensures Scheduling.IsRun(start, p.events + [e], p.snaps + [s])
    ensures Clock(start, p.events + [e], |p.events| + 1) == Clock(start, p.events, |p.events|) + Later(e)
  {
    hide Follows;
    var events, m := p.events + [e], |p.events|;
    assert events[..m] == p.events && events[..m + 1] == events;
    ClockPrefix(start, events, m, m);
    RunGoesOn(start, events, m, p.snaps, s);
  }

  ghost predicate SeenBy(s: Snapshot, trace: seq<System>, n: nat) {
    exists j: nat :: j <= n && j < |trace| && s == trace[j].snap
  }

  lemma SeenNow(trace: seq<System>, n: nat)
    requires n < |trace|
    ensures SeenBy(trace[n].snap, trace, n)
  {
  }

  lemma SeenBefore(trace: seq<System>, n: nat)
    requires n > 0
    ensures forall s | SeenBy(s, trace, n - 1) :: SeenBy(s, trace, n)
  {
    forall s | SeenBy(s, trace, n - 1) ensures SeenBy(s, trace, n) {
      var j: nat :| j <= n - 1 && j < |trace| && s == trace[j].snap;
      assert j <= n;
    }
  }

  lemma EmptyRun(start: nat, s: Snapshot)
    ensures Scheduling.IsRun(start, [], [s]) && Clock(start, [], 0) == start
  {
  }

  /** Bounded waiting in the kernel: a task that stays runnable runs within the bound, whatever waits, signals and
      sleeps in between. */
  lemma KernelWaits(start: nat, acts: seq<Act>, trace: seq<System>, x: nat)
    requires IsRun(start, acts, trace) && Ok(trace[0])
    requires forall j: nat | j <= |acts| :: x < trace[j].Count() && trace[j].snap.tasks[x].runnable
    requires
      var p, r := PartOf(start, acts, trace, |acts|), trace[0].snap.tasks[x].runtime;
      && Lasting(start, p.events, p.snaps)
      && Switches(start, p.events, p.snaps, |p.events|) >=
         1 + TotalLead(trace[0].snap.tasks, x, r) + NewLead(p.events, |p.events|, r)
    ensures exists j: nat :: j <= |acts| && trace[j].Me() == x
  {
    hide Ok, StepsAt, Scheduling.IsRun, Lasting, Switches, TotalLead, NewLead, PartOf;
    SchedulerRuns(start, acts, trace, |acts|);
    var p := PartOf(start, acts, trace, |acts|);
    forall i: nat | i < |p.snaps| ensures x < |p.snaps[i].tasks| && p.snaps[i].tasks[x].runnable {
      assert SeenBy(p.snaps[i], trace, |acts|);
      var j: nat :| j <= |acts| && p.snaps[i] == trace[j].snap;
      assert x < trace[j].Count();
    }
    BoundedWaiting(start, p.events, p.snaps, x);
    var i: nat :| i < |p.snaps| && p.snaps[i].current == x;
    assert SeenBy(p.snaps[i], trace, |acts|);
    var j: nat :| j <= |acts| && p.snaps[i] == trace[j].snap;
    assert trace[j].Me() == x;
  }
}
