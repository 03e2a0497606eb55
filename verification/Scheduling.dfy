/** The task list and the choice of the next task. Task ids are handed out in order, so the table of tasks is a
    sequence. */
module Scheduling {
  import opened Basics

  const SCHED_LATENCY := 20_000_000

  datatype Info = Info(runnable: bool, lastScheduled: nat, runUntil: nat, runtime: nat)

  /** An entry of the `schedulable` heap: a copy of the task's id and runtime at the time it was pushed. */
  datatype Queued = Queued(id: nat, runtime: nat)

  /** The queue holds each runnable task other than the running one exactly once, with its current runtime. */
  ghost predicate Exact(tasks: seq<Info>, queue: multiset<Queued>, running: int) {
    && (forall q | q in queue ::
          && queue[q] == 1 && q.id < |tasks| && q.id != running
          && tasks[q.id].runnable && q.runtime == tasks[q.id].runtime)
    && (forall id: nat | id < |tasks| && id != running && tasks[id].runnable :: Queued(id, tasks[id].runtime) in queue)
  }

  /** `retain(|x| x.task_id != id)`. */
  ghost predicate Retained(q: multiset<Queued>, q': multiset<Queued>, id: nat) {
    forall x :: q'[x] == if x.id == id then 0 else q[x]
  }

  /** The runtime of a task that ran from `lastScheduled` until `now`. */
  function Charged(tasks: seq<Info>, id: nat, now: nat): seq<Info>
    requires id < |tasks| && tasks[id].lastScheduled <= now
  {
    tasks[id := tasks[id].(runtime := tasks[id].runtime + (now - tasks[id].lastScheduled) * |tasks|)]
  }

  ghost predicate NoneRunnable(tasks: seq<Info>) { forall id: nat | id < |tasks| :: !tasks[id].runnable }

  /** The effect of `switch`: the running task is charged, and a runnable task of least runtime runs next, or task 0 if
      there is none. */
  ghost predicate Switched(tasks: seq<Info>, from: nat, tasks': seq<Info>, to: nat, now: nat) {
    && from < |tasks| && tasks[from].lastScheduled <= now
    && var charged := Charged(tasks, from, now);
       && to < |tasks| && (if NoneRunnable(charged) then to == 0 else charged[to].runnable)
       && (forall id: nat | id < |tasks| && charged[id].runnable :: charged[to].runtime <= charged[id].runtime)
       && tasks' == charged[to := charged[to].(lastScheduled := now, runUntil := now + SCHED_LATENCY / |tasks|)]
  }

  class TaskList {
    var tasks: seq<Info>
    var schedulable: multiset<Queued>
    var current: nat

    /** The running task exists, and the queue is exact. */
    ghost predicate Inv()
      reads this
    {
      current < |tasks| && Exact(tasks, schedulable, current)
    }

    /** `init_idle_task`. */
    constructor (now: nat)
      ensures Inv() && tasks == [Info(true, now, 0, 0)] && current == 0
    {
      tasks := [Info(true, now, 0, 0)];
      schedulable := multiset{};
      current := 0;
    }

    /** `new_task`. */
    method NewTask() returns (id: nat)
      requires Inv()
      modifies this`tasks, this`schedulable
      ensures Inv() && id == |old(tasks)| && tasks == old(tasks) + [Info(true, 0, 0, 0)]
    {
      id := |tasks|;
      tasks := tasks + [Info(true, 0, 0, 0)];
      schedulable := schedulable + multiset{Queued(id, 0)};
    }

    /** `update_runtime`, for the running task: it rejoins the queue if it is runnable. */
    method UpdateRuntime(now: nat)
      requires current < |tasks| && Exact(tasks, schedulable, current) && tasks[current].lastScheduled <= now
      modifies this`tasks, this`schedulable
      ensures tasks == Charged(old(tasks), current, now) && Exact(tasks, schedulable, -1)
    {
      var delta := (now - tasks[current].lastScheduled) * |tasks|;
      tasks := tasks[current := tasks[current].(runtime := tasks[current].runtime + delta)];
      if tasks[current].runnable {
        schedulable := schedulable + multiset{Queued(current, tasks[current].runtime)};
      }
    }

    /** `next`: pops an entry of least runtime. */
    method Next() returns (r: Option<nat>)
      requires Exact(tasks, schedulable, -1)
      modifies this`schedulable
      ensures r.None? <==> NoneRunnable(tasks)
      ensures r.None? ==> schedulable == old(schedulable) && Exact(tasks, schedulable, 0)
      ensures r.Some? ==>
                && r.value < |tasks| && tasks[r.value].runnable && Exact(tasks, schedulable, r.value)
                && (forall id: nat | id < |tasks| && tasks[id].runnable :: tasks[r.value].runtime <= tasks[id].runtime)
    {
      hide Exact;
      SomeQueued(tasks, schedulable);
      NoneQueued(tasks, schedulable);
      if schedulable == multiset{} {
        return None;
      }
      LeastQueued(schedulable);
      var q :| q in schedulable && forall x | x in schedulable :: q.runtime <= x.runtime;
      PopExact(tasks, schedulable, q);
      schedulable := schedulable - multiset{q};
      r := Some(q.id);
      assert tasks[q.id].runnable;
    }

    /** `set_runnable`. It would queue the running task, too, if that was woken. */
    method SetRunnable(id: nat, runnable: bool)
      requires current < |tasks| && Exact(tasks, schedulable, current) && id < |tasks|
      modifies this`tasks, this`schedulable
      ensures tasks == old(tasks)[id := old(tasks)[id].(runnable := runnable)]
      ensures Exact(tasks, schedulable, current) <==> !(runnable && id == current)
    {
      hide Exact, Retained;
      var rest := Retain(schedulable, id);
      RequeueExact(tasks, schedulable, rest, id, runnable, current);
      schedulable := rest;
      tasks := tasks[id := tasks[id].(runnable := runnable)];
      if runnable {
        schedulable := schedulable + multiset{Queued(id, tasks[id].runtime)};
      }
    }

    /** `set_current_task` and `set_run_until`. */
    method SetCurrent(id: nat, now: nat)
      requires id < |tasks| && Exact(tasks, schedulable, id)
      modifies this`tasks, this`current
      ensures current == id && Exact(tasks, schedulable, current)
      ensures
        var until := now + SCHED_LATENCY / |old(tasks)|;
        tasks == old(tasks)[id := old(tasks)[id].(lastScheduled := now, runUntil := until)]
    {
      current := id;
      tasks := tasks[id := tasks[id].(lastScheduled := now)];
      tasks := tasks[id := tasks[id].(runUntil := now + SCHED_LATENCY / |tasks|)];
    }

    /** `SchedulerGuard::switch`, up to `_do_switch`. */
    method Switch(now: nat)
      requires Inv() && tasks[current].lastScheduled <= now
      modifies this
      ensures Inv() && Switched(old(tasks), old(current), tasks, current, now)
    {
      hide Exact;
      UpdateRuntime(now);
      var next := Next();
      SetCurrent(if next.Some? then next.value else 0, now);
    }

    /** `check_runtime`, on every timer interrupt. */
    method CheckRuntime(now: nat)
      requires Inv() && tasks[current].lastScheduled <= now
      modifies this
      ensures Inv()
      ensures if old(tasks)[old(current)].runUntil <= now then Switched(old(tasks), old(current), tasks, current, now)
              else tasks == old(tasks) && current == old(current)
    {
      if tasks[current].runUntil <= now {
        Switch(now);
      }
    }

    /** `SchedulerGuard::block`. The task goes on running only if it is task 0 and no other task is runnable. */
    method Block(now: nat)
      requires Inv() && tasks[current].lastScheduled <= now
      modifies this
      ensures Inv()
      ensures
        var blocked := old(tasks)[old(current) := old(tasks)[old(current)].(runnable := false)];
        && Switched(blocked, old(current), tasks, current, now)
        && (current == old(current) <==> old(current) == 0 && NoneRunnable(blocked))
    {
      hide Exact;
      SetRunnable(current, false);
      ChargedRunnable(tasks, current, now);
      Switch(now);
    }

    /** `SchedulerGuard::wake`, and the timer callback of `sleep`. */
    method Wake(id: nat)
      requires Inv() && id < |tasks|
      modifies this
      ensures tasks == old(tasks)[id := old(tasks)[id].(runnable := true)] && current == old(current)
      ensures Inv() <==> id != current
    {
      SetRunnable(id, true);
    }
  }

  // ---- runs --------------------------------------------------------------

  /** What happens next, and how much later. */
  datatype Event = Tick(dt: nat) | Yield(dt: nat) | BlockSelf(dt: nat) | WakeUp(id: nat) | Spawn

  datatype Snapshot = Snapshot(tasks: seq<Info>, current: nat)

  function Later(e: Event): nat { if e.Tick? || e.Yield? || e.BlockSelf? then e.dt else 0 }

  /** The time after the first `n` events. */
  function Clock(start: nat, events: seq<Event>, n: nat): nat
    requires n <= |events|
  {
    if n == 0 then start else Clock(start, events, n - 1) + Later(events[n - 1])
  }

  function WithFlag(tasks: seq<Info>, id: nat, runnable: bool): seq<Info>
    requires id < |tasks|
  {
    tasks[id := tasks[id].(runnable := runnable)]
  }

  /** The event ends the running task's turn. */
  predicate Ends(s: Snapshot, e: Event, now: nat) {
    || e.Yield? || e.BlockSelf?
    || (e.Tick? && s.current < |s.tasks| && s.tasks[s.current].runUntil <= now)
  }

  /** The tasks from which the next one is chosen when a turn ends. */
  function Candidates(s: Snapshot, e: Event): seq<Info> {
    if e.BlockSelf? && s.current < |s.tasks| then WithFlag(s.tasks, s.current, false) else s.tasks
  }

  ghost predicate Follows(s: Snapshot, e: Event, now: nat, s': Snapshot) {
    if Ends(s, e, now) then Switched(Candidates(s, e), s.current, s'.tasks, s'.current, now)
    else match e
      case WakeUp(id) =>
        && (id < |s.tasks| ==> id != s.current)
        && s' == if id < |s.tasks| then Snapshot(WithFlag(s.tasks, id, true), s.current) else s
      case Spawn => s' == Snapshot(s.tasks + [Info(true, 0, 0, 0)], s.current)
      case _ => s' == s
  }

  ghost predicate FollowsAt(start: nat, events: seq<Event>, trace: seq<Snapshot>, i: nat)
    requires i < |events| && i + 1 < |trace|
  {
    Follows(trace[i], events[i], Clock(start, events, i + 1), trace[i + 1])
  }

  /** A run of the scheduler, in which the running task is never woken. */
  ghost predicate IsRun(start: nat, events: seq<Event>, trace: seq<Snapshot>) {
    |trace| == |events| + 1 && forall i: nat | i < |events| :: FollowsAt(start, events, trace, i)
  }

  ghost predicate Scheduled(tasks: seq<Info>, now: nat) {
    forall i: nat | i < |tasks| :: tasks[i].lastScheduled <= now
  }

  /** One event, unless it wakes the running task. */
  method Happen(list: TaskList, e: Event, now: nat)
    requires list.Inv() && Scheduled(list.tasks, now) && e != WakeUp(list.current)
    modifies list
    ensures list.Inv() && Scheduled(list.tasks, now)
    ensures Follows(Snapshot(old(list.tasks), old(list.current)), e, now, Snapshot(list.tasks, list.current))
  {
    hide Exact, NoneRunnable;
    match e {
      case Tick(_) => list.CheckRuntime(now);
      case Yield(_) => list.Switch(now);
      case BlockSelf(_) => list.Block(now);
      case WakeUp(id) =>
        if id < |list.tasks| {
          list.Wake(id);
        }
      case Spawn =>
        var id := list.NewTask();
    }
  }

  /** Any run, up to an event that wakes the running task. At every point the queue is exact, and the next task is a
      runnable task of least runtime. */
  method Run(list: TaskList, start: nat, events: seq<Event>)
    returns (done: nat, clock: nat, ghost trace: seq<Snapshot>, ghost queues: seq<multiset<Queued>>)
    requires list.Inv() && Scheduled(list.tasks, start)
    modifies list
    ensures list.Inv() && done <= |events| && clock == Clock(start, events, done)
    ensures done < |events| ==> events[done] == WakeUp(list.current)
    ensures IsRun(start, events[..done], trace) && |queues| == |trace|
    ensures trace[0] == Snapshot(old(list.tasks), old(list.current)) && queues[0] == old(list.schedulable)
    ensures trace[done] == Snapshot(list.tasks, list.current) && queues[done] == list.schedulable
    ensures forall i: nat | i <= done ::
              trace[i].current < |trace[i].tasks| && Exact(trace[i].tasks, queues[i], trace[i].current)
  {
    hide Exact, Follows;
    done, clock := 0, start;
    trace, queues := [Snapshot(list.tasks, list.current)], [list.schedulable];
    while done < |events| && events[done] != WakeUp(list.current)
      invariant done <= |events| && clock == Clock(start, events, done)
      invariant list.Inv() && Scheduled(list.tasks, clock)
      invariant IsRun(start, events[..done], trace) && |queues| == |trace|
      invariant trace[0] == Snapshot(old(list.tasks), old(list.current)) && queues[0] == old(list.schedulable)
      invariant trace[done] == Snapshot(list.tasks, list.current) && queues[done] == list.schedulable
      invariant forall i: nat | i <= done ::
                  trace[i].current < |trace[i].tasks| && Exact(trace[i].tasks, queues[i], trace[i].current)
    {
      clock := clock + Later(events[done]);
      Happen(list, events[done], clock);
      RunGoesOn(start, events, done, trace, Snapshot(list.tasks, list.current));
      trace, queues := trace + [Snapshot(list.tasks, list.current)], queues + [list.schedulable];
      done := done + 1;
    }
  }

  lemma {:induction false} ClockPrefix(start: nat, events: seq<Event>, m: nat, n: nat)
    requires n <= m <= |events|
    ensures Clock(start, events[..m], n) == Clock(start, events, n)
    decreases n
  {
    if n > 0 {
      ClockPrefix(start, events, m, n - 1);
    }
  }

  lemma RunGoesOn(start: nat, events: seq<Event>, n: nat, trace: seq<Snapshot>, s: Snapshot)
    requires n < |events| && IsRun(start, events[..n], trace)
    requires Follows(trace[n], events[n], Clock(start, events, n + 1), s)
    ensures IsRun(start, events[..n + 1], trace + [s])
  {
    hide Follows, Clock;
    var events', trace' := events[..n + 1], trace + [s];
    forall i: nat | i <= n ensures FollowsAt(start, events', trace', i) {
      ClockPrefix(start, events, n + 1, i + 1);
      if i < n {
        ClockPrefix(start, events, n, i + 1);
        assert FollowsAt(start, events[..n], trace, i);
      }
    }
  }

  // ---- the fallback ------------------------------------------------------

  /** If task 0 never blocks, it stays runnable. */
  lemma {:induction false} IdleStaysRunnable(start: nat, events: seq<Event>, trace: seq<Snapshot>, i: nat)
    requires IsRun(start, events, trace) && i <= |events|
    requires trace[0].tasks != [] && trace[0].tasks[0].runnable
    requires forall j: nat | j < |events| && events[j].BlockSelf? :: trace[j].current != 0
    ensures trace[i].tasks != [] && trace[i].tasks[0].runnable
    decreases i
  {
    if i > 0 {
      IdleStaysRunnable(start, events, trace, i - 1);
      assert FollowsAt(start, events, trace, i - 1);
    }
  }

  /** Then the fallback to task 0 is never reached: every switch finds a runnable task, and it runs next. */
  lemma FallbackUnreached(start: nat, events: seq<Event>, trace: seq<Snapshot>, i: nat)
    requires IsRun(start, events, trace) && i < |events| && Ends(trace[i], events[i], Clock(start, events, i + 1))
    requires trace[0].tasks != [] && trace[0].tasks[0].runnable
    requires forall j: nat | j < |events| && events[j].BlockSelf? :: trace[j].current != 0
    ensures !NoneRunnable(Candidates(trace[i], events[i]))
    ensures trace[i + 1].current < |trace[i + 1].tasks| && trace[i + 1].tasks[trace[i + 1].current].runnable
  {
    IdleStaysRunnable(start, events, trace, i);
    var s, e, now := trace[i], events[i], Clock(start, events, i + 1);
    assert FollowsAt(start, events, trace, i);
    assert Candidates(s, e)[0].runnable;
    ChargedRunnable(Candidates(s, e), s.current, now);
  }

  // ---- turns -------------------------------------------------------------

  /** The point at which the turn began that is under way at point `n`. */
  function TurnOf(start: nat, events: seq<Event>, trace: seq<Snapshot>, n: nat): (t: nat)
    requires n <= |events| < |trace|
    ensures t <= n
  {
    if n == 0 then 0
    else if Ends(trace[n - 1], events[n - 1], Clock(start, events, n)) then n
    else TurnOf(start, events, trace, n - 1)
  }

  /** The time at which it began. */
  function Began(start: nat, events: seq<Event>, trace: seq<Snapshot>, n: nat): nat
    requires n <= |events| < |trace| && trace[0].current < |trace[0].tasks|
  {
    var t := TurnOf(start, events, trace, n);
    if t == 0 then trace[0].tasks[trace[0].current].lastScheduled else Clock(start, events, t)
  }

  /** When the turn is over that is under way: 20 ms, divided by the number of tasks, after it began. */
  lemma {:induction false} TurnLength(start: nat, events: seq<Event>, trace: seq<Snapshot>, n: nat)
    requires IsRun(start, events, trace) && trace[0].current < |trace[0].tasks| && n <= |events|
    ensures
      var s, t := trace[n], TurnOf(start, events, trace, n);
      && s.current < |s.tasks| && s.tasks[s.current].lastScheduled == Began(start, events, trace, n)
      && (t > 0 ==>
            && trace[t].tasks != []
            && s.tasks[s.current].runUntil == Clock(start, events, t) + 20_000_000 / |trace[t].tasks|)
    decreases n
  {
    if n > 0 {
      TurnLength(start, events, trace, n - 1);
      assert FollowsAt(start, events, trace, n - 1);
    }
  }

  /** A timer interrupt ends the turn if and only if that time has come, and changes nothing otherwise; a task that
      yields or blocks ends it at once; nothing else does. */
  lemma TurnsEnd(start: nat, events: seq<Event>, trace: seq<Snapshot>, i: nat)
    requires IsRun(start, events, trace) && trace[0].current < |trace[0].tasks| && i < |events|
    requires TurnOf(start, events, trace, i) > 0
    ensures
      var t, t', e := TurnOf(start, events, trace, i), TurnOf(start, events, trace, i + 1), events[i];
      && trace[t].tasks != []
      && (t' == i + 1 <==>
            || e.Yield? || e.BlockSelf?
            || (e.Tick? && Clock(start, events, i + 1) >= Clock(start, events, t) + 20_000_000 / |trace[t].tasks|))
      && (t' != i + 1 ==> t' == t && trace[i + 1].current == trace[i].current)
      && (t' != i + 1 && e.Tick? ==> trace[i + 1] == trace[i])
  {
    TurnLength(start, events, trace, i);
    assert FollowsAt(start, events, trace, i);
  }

  /** What task `x` is charged for its turns that are over at point `n`: their length, times the number of tasks. */
  function Earned(start: nat, events: seq<Event>, trace: seq<Snapshot>, x: nat, n: nat): int
    requires n <= |events| < |trace| && trace[0].current < |trace[0].tasks|
  {
    if n == 0 then 0
    else
      var before := Earned(start, events, trace, x, n - 1);
      if TurnOf(start, events, trace, n) == n && trace[n - 1].current == x then
        before + (Clock(start, events, n) - Began(start, events, trace, n - 1)) * |trace[n - 1].tasks|
      else before
  }

  /** A task's runtime is what it had at the start, or 0 if it was created since, and what its turns have earned it. */
  lemma {:induction false} RuntimeIs(start: nat, events: seq<Event>, trace: seq<Snapshot>, x: nat, n: nat)
    requires IsRun(start, events, trace) && trace[0].current < |trace[0].tasks| && n <= |events|
    requires x < |trace[n].tasks|
    ensures trace[n].tasks[x].runtime ==
            (if x < |trace[0].tasks| then trace[0].tasks[x].runtime else 0) + Earned(start, events, trace, x, n)
    decreases n
  {
    if n > 0 {
      TurnLength(start, events, trace, n - 1);
      assert FollowsAt(start, events, trace, n - 1);
      if x < |trace[n - 1].tasks| {
        RuntimeIs(start, events, trace, x, n - 1);
      } else {
        Unborn(start, events, trace, x, n - 1);
      }
    }
  }

  /** A task that does not exist yet has earned nothing. */
  lemma {:induction false} Unborn(start: nat, events: seq<Event>, trace: seq<Snapshot>, x: nat, n: nat)
    requires IsRun(start, events, trace) && trace[0].current < |trace[0].tasks| && n <= |events|
    requires x >= |trace[n].tasks|
    ensures x >= |trace[0].tasks| && Earned(start, events, trace, x, n) == 0
    decreases n
  {
    if n > 0 {
      TurnLength(start, events, trace, n - 1);
      assert FollowsAt(start, events, trace, n - 1);
      Unborn(start, events, trace, x, n - 1);
    }
  }

  // ---- bounded waiting ---------------------------------------------------

  /** How many of the first `n` events end a turn. */
  function Switches(start: nat, events: seq<Event>, trace: seq<Snapshot>, n: nat): nat
    requires n <= |events| < |trace|
  {
    if n == 0 then 0
    else
      var before := Switches(start, events, trace, n - 1);
      if Ends(trace[n - 1], events[n - 1], Clock(start, events, n)) then before + 1 else before
  }

  /** Every turn that ends has lasted for at least 1 ns. */
  ghost predicate Lasting(start: nat, events: seq<Event>, trace: seq<Snapshot>)
    requires |events| < |trace|
  {
    forall i: nat | i < |events| && Ends(trace[i], events[i], Clock(start, events, i + 1)) ::
      LastedAt(start, events, trace, i)
  }

  predicate LastedAt(start: nat, events: seq<Event>, trace: seq<Snapshot>, i: nat)
    requires i < |events| < |trace|
  {
    trace[i].current < |trace[i].tasks| && trace[i].tasks[trace[i].current].lastScheduled < Clock(start, events, i + 1)
  }

  /** How much longer a task may run before it is behind a task with runtime `r`. */
  function Lead(info: Info, r: nat): nat { if info.runtime <= r then r + 1 - info.runtime else 0 }

  /** The sum over all tasks but `x`. */
  function TotalLead(tasks: seq<Info>, x: nat, r: nat): nat {
    if tasks == [] then 0
    else TotalLead(tasks[..|tasks| - 1], x, r) + if |tasks| - 1 == x then 0 else Lead(tasks[|tasks| - 1], r)
  }

  /** What the tasks add that are created in the first `n` events. */
  function NewLead(events: seq<Event>, n: nat, r: nat): nat
    requires n <= |events|
  {
    if n == 0 then 0 else NewLead(events, n - 1, r) + if events[n - 1].Spawn? then r + 1 else 0
  }

  lemma {:induction false} LeadUpdate(tasks: seq<Info>, i: nat, info: Info, x: nat, r: nat)
    requires i < |tasks|
    ensures TotalLead(tasks[i := info], x, r) ==
            TotalLead(tasks, x, r) + if i == x then 0 else Lead(info, r) - Lead(tasks[i], r)
    ensures i != x ==> TotalLead(tasks, x, r) >= Lead(tasks[i], r)
  {
    var n := |tasks| - 1;
    if i == n {
      assert tasks[i := info][..n] == tasks[..n];
    } else {
      assert tasks[i := info][..n] == tasks[..n][i := info];
      LeadUpdate(tasks[..n], i, info, x, r);
    }
  }

  lemma {:induction false} LeadSame(tasks: seq<Info>, tasks': seq<Info>, x: nat, r: nat)
    requires |tasks| == |tasks'| && forall i: nat | i < |tasks| :: tasks[i].runtime == tasks'[i].runtime
    ensures TotalLead(tasks, x, r) == TotalLead(tasks', x, r)
  {
    if tasks != [] {
      LeadSame(tasks[..|tasks| - 1], tasks'[..|tasks| - 1], x, r);
    }
  }

  /** `x` is queued and not running. */
  ghost predicate Queues(s: Snapshot, x: nat) { x < |s.tasks| && x != s.current && s.tasks[x].runnable }

  /** A turn that ends without choosing `x` costs the task that ran at least one unit of its lead, if it had any; and
      the task chosen has some. */
  lemma SwitchCosts(tasks: seq<Info>, from: nat, tasks': seq<Info>, to: nat, now: nat, x: nat, r: nat)
    requires Switched(tasks, from, tasks', to, now) && tasks[from].lastScheduled < now
    requires x < |tasks| && x != from && x != to && tasks[x].runnable && tasks[x].runtime == r
    ensures |tasks'| == |tasks| && tasks'[x].runtime == r && to < |tasks'| && tasks'[to].runtime <= r
    ensures TotalLead(tasks', x, r) <= TotalLead(tasks, x, r)
    ensures tasks[from].runtime <= r ==> TotalLead(tasks', x, r) < TotalLead(tasks, x, r)
  {
    hide NoneRunnable;
    var charged := Charged(tasks, from, now);
    assert charged[x].runnable && charged[to].runtime <= charged[x].runtime;
    assert (now - tasks[from].lastScheduled) * |tasks| >= 1;
    LeadUpdate(tasks, from, charged[from], x, r);
    assert charged[x] == tasks[x];
    LeadSame(charged, tasks', x, r);
  }

  /** What one event does to the total lead, if `x` is not chosen. */
  lemma EventCosts(s: Snapshot, e: Event, now: nat, s': Snapshot, x: nat, r: nat)
    requires Follows(s, e, now, s') && Queues(s, x) && Queues(s', x) && s.tasks[x].runtime == r
    requires Ends(s, e, now) ==> s.current < |s.tasks| && s.tasks[s.current].lastScheduled < now
    ensures s'.tasks[x].runtime == r
    ensures TotalLead(s'.tasks, x, r) <= TotalLead(s.tasks, x, r) + if e.Spawn? then r + 1 else 0
    ensures Ends(s, e, now) ==> s'.current < |s'.tasks| && s'.tasks[s'.current].runtime <= r
    ensures !Ends(s, e, now) && s.current < |s.tasks| ==>
              && s'.current == s.current && s'.current < |s'.tasks|
              && s'.tasks[s'.current].runtime == s.tasks[s.current].runtime
    ensures Ends(s, e, now) && s.tasks[s.current].runtime <= r ==> TotalLead(s'.tasks, x, r) < TotalLead(s.tasks, x, r)
  {
    if Ends(s, e, now) {
      LeadSame(s.tasks, Candidates(s, e), x, r);
      SwitchCosts(Candidates(s, e), s.current, s'.tasks, s'.current, now, x, r);
    } else if e.Spawn? {
      assert s'.tasks[..|s.tasks|] == s.tasks;
    } else {
      LeadSame(s.tasks, s'.tasks, x, r);
    }
  }

  /** While `x` is passed over, every turn after the first uses up lead. */
  lemma {:induction false} PassedOver(start: nat, events: seq<Event>, trace: seq<Snapshot>, x: nat, r: nat, n: nat)
    requires IsRun(start, events, trace) && Lasting(start, events, trace) && n <= |events|
    requires forall i: nat | i < |trace| :: Queues(trace[i], x)
    requires Queues(trace[0], x) && trace[0].tasks[x].runtime == r
    ensures
      var now, lead := trace[n], TotalLead(trace[0].tasks, x, r) + NewLead(events, n, r);
      && Queues(now, x) && now.tasks[x].runtime == r && TotalLead(now.tasks, x, r) <= lead
      && (Switches(start, events, trace, n) > 0 ==>
            && now.current < |now.tasks| && now.tasks[now.current].runtime <= r
            && Switches(start, events, trace, n) + TotalLead(now.tasks, x, r) <= lead + 1)
    decreases n
  {
    hide Follows, TotalLead, Clock, Ends;
    assert Queues(trace[n], x);
    if n > 0 {
      PassedOver(start, events, trace, x, r, n - 1);
      assert FollowsAt(start, events, trace, n - 1) && Queues(trace[n - 1], x);
      assert Ends(trace[n - 1], events[n - 1], Clock(start, events, n)) ==> LastedAt(start, events, trace, n - 1);
      EventCosts(trace[n - 1], events[n - 1], Clock(start, events, n), trace[n], x, r);
    }
  }

  /** Bounded waiting: a task that stays runnable with runtime `r` is chosen within one more switch than the sum of
      max(0, r + 1 - runtime) over the other tasks, and r + 1 for every task created meanwhile, whatever blocks and
      wakes in between. */
  lemma BoundedWaiting(start: nat, events: seq<Event>, trace: seq<Snapshot>, x: nat)
    requires IsRun(start, events, trace) && Lasting(start, events, trace)
    requires forall i: nat | i < |trace| :: x < |trace[i].tasks| && trace[i].tasks[x].runnable
    requires
      var r := trace[0].tasks[x].runtime;
      Switches(start, events, trace, |events|) >= 1 + TotalLead(trace[0].tasks, x, r) + NewLead(events, |events|, r)
    ensures exists i: nat :: i < |trace| && trace[i].current == x
  {
    var r, n := trace[0].tasks[x].runtime, |events|;
    if forall i: nat | i < |trace| :: trace[i].current != x {
      assert forall i: nat | i < |trace| :: Queues(trace[i], x);
      PassedOver(start, events, trace, x, r, n);
      LeadUpdate(trace[n].tasks, trace[n].current, trace[n].tasks[trace[n].current], x, r);
    }
  }

  /** Turns last if time passes with every event that can end one. */
  lemma TimePasses(start: nat, events: seq<Event>, trace: seq<Snapshot>)
    requires IsRun(start, events, trace) && Scheduled(trace[0].tasks, start)
    requires forall i: nat | i < |events| :: events[i].WakeUp? || events[i].Spawn? || events[i].dt > 0
    ensures Lasting(start, events, trace)
  {
    forall i: nat | i < |events| && Ends(trace[i], events[i], Clock(start, events, i + 1))
      ensures LastedAt(start, events, trace, i)
    {
      AllScheduled(start, events, trace, i);
      assert FollowsAt(start, events, trace, i);
    }
  }

  lemma {:induction false} AllScheduled(start: nat, events: seq<Event>, trace: seq<Snapshot>, i: nat)
    requires IsRun(start, events, trace) && Scheduled(trace[0].tasks, start) && i <= |events|
    ensures Scheduled(trace[i].tasks, Clock(start, events, i))
    decreases i
  {
    if i > 0 {
      AllScheduled(start, events, trace, i - 1);
      assert FollowsAt(start, events, trace, i - 1);
    }
  }

  lemma PopExact(tasks: seq<Info>, queue: multiset<Queued>, q: Queued)
    requires Exact(tasks, queue, -1) && q in queue
    requires forall x | x in queue :: q.runtime <= x.runtime
    ensures q.id < |tasks| && tasks[q.id].runnable && Exact(tasks, queue - multiset{q}, q.id)
    ensures forall id: nat | id < |tasks| && tasks[id].runnable :: tasks[q.id].runtime <= tasks[id].runtime
  {
  }

  lemma SomeQueued(tasks: seq<Info>, queue: multiset<Queued>)
    requires Exact(tasks, queue, -1)
    ensures forall id: nat | id < |tasks| && tasks[id].runnable :: queue != multiset{}
  {
  }

  lemma ChargedRunnable(tasks: seq<Info>, id: nat, now: nat)
    requires id < |tasks| && tasks[id].lastScheduled <= now
    ensures NoneRunnable(Charged(tasks, id, now)) <==> NoneRunnable(tasks)
  {
    var charged := Charged(tasks, id, now);
    assert forall i: nat | i < |tasks| :: charged[i].runnable == tasks[i].runnable;
    assert !NoneRunnable(tasks) ==> exists i: nat :: i < |tasks| && tasks[i].runnable && charged[i].runnable;
  }

  lemma RequeueExact(tasks: seq<Info>, queue: multiset<Queued>, rest: multiset<Queued>, id: nat, runnable: bool,
                     current: nat)
    requires Exact(tasks, queue, current) && id < |tasks| && Retained(queue, rest, id)
    ensures
      var tasks' := tasks[id := tasks[id].(runnable := runnable)];
      var queue' := if runnable then rest + multiset{Queued(id, tasks'[id].runtime)} else rest;
      Exact(tasks', queue', current) <==> !(runnable && id == current)
  {
    var tasks' := tasks[id := tasks[id].(runnable := runnable)];
    if runnable {
      var queue' := rest + multiset{Queued(id, tasks'[id].runtime)};
      assert Queued(id, tasks'[id].runtime) in queue';
      assert forall q | q in queue' :: q == Queued(id, tasks'[id].runtime) || q in rest;
    }
  }

  lemma NoneQueued(tasks: seq<Info>, queue: multiset<Queued>)
    requires Exact(tasks, queue, -1)
    ensures queue == multiset{} ==> NoneRunnable(tasks) && Exact(tasks, queue, 0)
    ensures NoneRunnable(tasks) ==> queue == multiset{}
  {
    if queue != multiset{} {
      var q :| q in queue;
    }
  }

  lemma {:induction false} LeastQueued(q: multiset<Queued>)
    requires q != multiset{}
    ensures exists m :: m in q && forall x | x in q :: m.runtime <= x.runtime
    decreases |q|
  {
    var x :| x in q;
    var rest := q - multiset{x};
    if rest == multiset{} {
      assert q == multiset{x};
      assert x in q && forall y | y in q :: x.runtime <= y.runtime;
    } else {
      LeastQueued(rest);
      var m :| m in rest && forall y | y in rest :: m.runtime <= y.runtime;
      var least := if x.runtime < m.runtime then x else m;
      assert q == rest + multiset{x};
      assert least in q && forall y | y in q :: least.runtime <= y.runtime;
    }
  }

  method Retain(q: multiset<Queued>, id: nat) returns (r: multiset<Queued>)
    ensures Retained(q, r, id)
  {
    r := multiset{};
    var todo := q;
    while todo != multiset{}
      invariant forall x :: r[x] + (if x.id == id then 0 else todo[x]) == if x.id == id then 0 else q[x]
      decreases |todo|
    {
      var x :| x in todo;
      todo := todo - multiset{x};
      if x.id != id {
        r := r + multiset{x};
      }
    }
  }
}
