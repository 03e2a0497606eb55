/** The scheduler lock and the interrupt flag on one processor. The lock is taken with interrupts masked, and a
    task switch hands it over: the task that resumes releases the acquisition of the task that left, and
    restores its own interrupt flag. */
module LockHandoff {
  import opened Basics

  /** Where code is with respect to the scheduler lock. */
  datatype Phase =
    | Free
    | Sampled(w: bool)   // interrupts_enabled() returned w
    | Masked(w: bool)    // disable_interrupts()
    | Saved              // set_resume_interrupts(w), about to take the mutex
    | Holding            // has the guard
    | Dropping(r: bool)  // resume_interrupts() returned r, mutex still held
    | Unlocked(r: bool)  // mutex released
    | Suspended          // inside _do_switch

  /** A task: its saved interrupt flag, its own code, and the interrupt handler on top of it, if any. */
  datatype Task = Task(flag: bool, main: Phase, isr: Option<Phase>)
  {
    function Inner(): Phase { if isr.Some? then isr.value else main }

    function Goto(p: Phase): Task { if isr.Some? then this.(isr := Some(p)) else this.(main := p) }
  }

  /** The code of a task, or the interrupt handler on top of it. */
  datatype Caller = Caller(task: nat, handler: bool)

  /** What happens to the interrupt flag: a call of `lock` finds it, a guard's drop restores it, and a new task is to
      start with it on. */
  datatype Mark = Found(who: Caller, flag: bool) | Restored(who: Caller, flag: bool) | Created(who: Caller)

  datatype Cpu = Cpu(held: bool, interrupts: bool, running: nat, tasks: seq<Task>, acquired: nat, released: nat,
                     log: seq<Mark>)
  {
    function Current(): Task
      requires running < |tasks|
    {
      tasks[running]
    }

    function Who(): Caller
      requires running < |tasks|
    {
      Caller(running, Current().isr.Some?)
    }

    function Goto(p: Phase): Cpu
      requires running < |tasks|
    {
      this.(tasks := tasks[running := Current().Goto(p)])
    }

    function Mark(m: Mark): Cpu { this.(log := log + [m]) }
  }

  // ---- the flag of a call that has not been restored ---------------------

  /** The flag that is still to be restored to the caller, by the history. */
  function Open(log: seq<Mark>, who: Caller): Option<bool> {
    if log == [] then None
    else
      var m := log[|log| - 1];
      if m.who != who then Open(log[..|log| - 1], who)
      else match m
        case Found(_, flag) => Some(flag)
        case Created(_) => Some(true)
        case Restored(_, _) => None
  }

  /** The flag that is still to be restored, by the place in the code. */
  function Pending(t: Task, handler: bool): Option<bool> {
    if !handler then PendingAt(t.main, t.flag) else if t.isr.Some? then PendingAt(t.isr.value, t.flag) else None
  }

  function PendingAt(p: Phase, flag: bool): Option<bool> {
    match p
    case Free => None
    case Sampled(w) => Some(w)
    case Masked(w) => Some(w)
    case Saved => Some(flag)
    case Holding => Some(flag)
    case Suspended => Some(flag)
    case Dropping(r) => Some(r)
    case Unlocked(r) => Some(r)
  }

  /** Every drop restores the flag that the caller's own last `lock` found, once; every `lock` comes after the drop of
      the one before. */
  predicate Restores(log: seq<Mark>) {
    forall j: nat | j < |log| ::
      Open(log[..j], log[j].who) == if log[j].Restored? then Some(log[j].flag) else None
  }

  // ---- the invariant -----------------------------------------------------

  /** A handler interrupted code that had interrupts on, and runs with interrupts off. */
  predicate HandlerOk(t: Task) {
    t.isr.Some? ==> t.main in {Free, Sampled(true)} && Pending(t, true) != Some(true)
  }

  predicate RunningOk(t: Task, held: bool, interrupts: bool) {
    && HandlerOk(t) && (t.isr.Some? ==> !interrupts)
    && match t.Inner()
       case Free => !held
       case Sampled(w) => !held && w == interrupts
       case Masked(_) => !held && !interrupts
       case Saved => !held && !interrupts
       case Holding => held && !interrupts
       case Dropping(_) => held && !interrupts
       case Unlocked(_) => !held && !interrupts
       case Suspended => false
  }

  predicate SuspendedOk(t: Task) { HandlerOk(t) && t.Inner() == Suspended }

  ghost predicate LogOk(s: Cpu) {
    && Restores(s.log)
    && (forall who: Caller ::
          Open(s.log, who) == if who.task < |s.tasks| then Pending(s.tasks[who.task], who.handler) else None)
  }

  /** Every acquisition but the current one has been released. */
  predicate Balanced(s: Cpu) { s.acquired == s.released + (if s.held then 1 else 0) }

  ghost predicate CpuOk(s: Cpu) {
    && s.running < |s.tasks| && RunningOk(s.Current(), s.held, s.interrupts)
    && (forall i: nat | i < |s.tasks| && i != s.running :: SuspendedOk(s.tasks[i]))
    && Balanced(s) && LogOk(s)
  }

  // ---- the steps ---------------------------------------------------------

  datatype Action =
    | SetInterrupts(on: bool)   // the task's own code, outside the lock
    | Sample | Mask | Save | Acquire | ReadBack | Unlock | Restore
    | SwitchTo(task: nat)
    | NewTask
    | Interrupt | Return
    | Callback

  /** `lock`: the four steps, one at a time. */
  function LockStep(s: Cpu, a: Action): Cpu
    requires s.running < |s.tasks|
  {
    match (a, s.Current().Inner())
    case (Sample, Free) => s.Goto(Sampled(s.interrupts)).Mark(Found(s.Who(), s.interrupts))
    case (Mask, Sampled(w)) => s.Goto(Masked(w)).(interrupts := false)
    case (Save, Masked(w)) => s.(tasks := s.tasks[s.running := s.Current().Goto(Saved).(flag := w)])
    case (Acquire, Saved) => s.Goto(Holding).(held := true, acquired := s.acquired + 1)
    case _ => s
  }

  /** The drop of the guard, one step at a time. */
  function DropStep(s: Cpu, a: Action): Cpu
    requires s.running < |s.tasks|
  {
    match (a, s.Current().Inner())
    case (ReadBack, Holding) => s.Goto(Dropping(s.Current().flag))
    case (Unlock, Dropping(r)) => s.Goto(Unlocked(r)).(held := false, released := s.released + 1)
    case (Restore, Unlocked(r)) =>
      var on := r || s.interrupts;
      s.Goto(Free).(interrupts := on).Mark(Restored(s.Who(), on))
    case _ => s
  }

  /** The task that leaves keeps its saved flag; the task that resumes has the lock, and its own saved flag. */
  function SwitchStep(s: Cpu, to: nat): Cpu
    requires s.running < |s.tasks|
  {
    if s.Current().Inner().Holding? && to < |s.tasks| && to != s.running then
      s.(tasks := s.tasks[s.running := s.Current().Goto(Suspended)][to := s.tasks[to].Goto(Holding)], running := to)
    else s
  }

  function NewTaskStep(s: Cpu): Cpu
    requires s.running < |s.tasks|
  {
    if s.Current().Inner().Holding? then
      s.(tasks := s.tasks + [Task(true, Suspended, None)]).Mark(Created(Caller(|s.tasks|, false)))
    else s
  }

  function HandlerStep(s: Cpu, a: Action): Cpu
    requires s.running < |s.tasks|
  {
    var t := s.Current();
    if a == Interrupt && s.interrupts then
      s.(tasks := s.tasks[s.running := t.(isr := Some(Free))], interrupts := false)
    else if a == Return && t.isr == Some(Free) then
      s.(tasks := s.tasks[s.running := t.(isr := None)], interrupts := true)
    else s
  }

  function CallbackStep(s: Cpu): Cpu
    requires s.running < |s.tasks|
  {
    if s.Current().isr == Some(Free) then s.(acquired := s.acquired + 1, released := s.released + 1) else s
  }

  /** Code outside the lock may mask and unmask interrupts; a handler keeps them masked. */
  function OwnStep(s: Cpu, on: bool): Cpu
    requires s.running < |s.tasks|
  {
    if s.Current().isr.None? && s.Current().main.Free? then s.(interrupts := on) else s
  }

  function Next(s: Cpu, a: Action): Cpu
    requires s.running < |s.tasks|
  {
    match a
    case SetInterrupts(on) => OwnStep(s, on)
    case SwitchTo(to) => SwitchStep(s, to)
    case NewTask => NewTaskStep(s)
    case Callback => CallbackStep(s)
    case Interrupt => HandlerStep(s, a)
    case Return => HandlerStep(s, a)
    case ReadBack => DropStep(s, a)
    case Unlock => DropStep(s, a)
    case Restore => DropStep(s, a)
    case _ => LockStep(s, a)
  }

  // ---- what every step keeps ---------------------------------------------

  lemma OpenStep(log: seq<Mark>, m: Mark, who: Caller)
    ensures Open(log + [m], who) ==
            if m.who != who then Open(log, who)
            else if m.Found? then Some(m.flag) else if m.Created? then Some(true) else None
  {
    assert (log + [m])[..|log|] == log;
  }

  lemma RestoresStep(log: seq<Mark>, m: Mark)
    requires Restores(log) && Open(log, m.who) == if m.Restored? then Some(m.flag) else None
    ensures Restores(log + [m])
  {
    var log' := log + [m];
    forall j: nat | j < |log'|
      ensures Open(log'[..j], log'[j].who) == if log'[j].Restored? then Some(log'[j].flag) else None
    {
      assert log'[..j] == log[..j] && log[..|log|] == log;
    }
  }

  lemma LogStep(s: Cpu, t: Cpu, m: Mark)
    requires LogOk(s) && t.log == s.log + [m] && Open(s.log, m.who) == (if m.Restored? then Some(m.flag) else None)
    requires forall who: Caller ::
      (if who.task < |t.tasks| then Pending(t.tasks[who.task], who.handler) else None) ==
      (if who == m.who then if m.Found? then Some(m.flag) else if m.Created? then Some(true) else None
       else if who.task < |s.tasks| then Pending(s.tasks[who.task], who.handler) else None)
    ensures LogOk(t)
  {
    RestoresStep(s.log, m);
    forall who: Caller
      ensures Open(t.log, who) == if who.task < |t.tasks| then Pending(t.tasks[who.task], who.handler) else None
    {
      OpenStep(s.log, m, who);
    }
  }

  lemma LockKeeps(s: Cpu, a: Action)
    requires CpuOk(s)
    ensures CpuOk(LockStep(s, a))
  {
    hide RunningOk, LogOk, SuspendedOk;
    LockKeepsPlace(s, a);
    LockKeepsLog(s, a);
  }

  lemma LockKeepsPlace(s: Cpu, a: Action)
    requires s.running < |s.tasks| && RunningOk(s.Current(), s.held, s.interrupts)
    ensures
      var t := LockStep(s, a);
      && t.running == s.running && RunningOk(t.Current(), t.held, t.interrupts)
      && Balanced(t) == Balanced(s)
  {
  }

  lemma LockKeepsLog(s: Cpu, a: Action)
    requires s.running < |s.tasks| && RunningOk(s.Current(), s.held, s.interrupts) && LogOk(s)
    ensures LogOk(LockStep(s, a))
  {
    hide Restores;
    if a.Sample? && s.Current().Inner().Free? {
      LogStep(s, LockStep(s, a), Found(s.Who(), s.interrupts));
    }
  }

  lemma DropKeeps(s: Cpu, a: Action)
    requires CpuOk(s)
    ensures CpuOk(DropStep(s, a))
  {
    hide RunningOk, LogOk, SuspendedOk;
    DropKeepsPlace(s, a);
    DropKeepsLog(s, a);
  }

  lemma DropKeepsPlace(s: Cpu, a: Action)
    requires s.running < |s.tasks| && RunningOk(s.Current(), s.held, s.interrupts)
    ensures
      var t := DropStep(s, a);
      && t.running == s.running && RunningOk(t.Current(), t.held, t.interrupts)
      && Balanced(t) == Balanced(s)
  {
  }

  lemma DropKeepsLog(s: Cpu, a: Action)
    requires s.running < |s.tasks| && RunningOk(s.Current(), s.held, s.interrupts) && LogOk(s)
    ensures LogOk(DropStep(s, a))
  {
    hide Restores;
    var t := s.Current();
    if a.Restore? && t.Inner().Unlocked? {
      assert Open(s.log, s.Who()) == Some(t.Inner().r);
      LogStep(s, DropStep(s, a), Restored(s.Who(), t.Inner().r));
    } else if a.ReadBack? && t.Inner().Holding? {
      assert Open(s.log, s.Who()) == Some(t.flag);
    }
  }

  lemma SwitchKeeps(s: Cpu, to: nat)
    requires CpuOk(s)
    ensures CpuOk(SwitchStep(s, to))
  {
  }

  lemma NewTaskKeeps(s: Cpu)
    requires CpuOk(s)
    ensures CpuOk(NewTaskStep(s))
  {
    if s.Current().Inner().Holding? {
      LogStep(s, NewTaskStep(s), Created(Caller(|s.tasks|, false)));
    }
  }

  lemma HandlerKeeps(s: Cpu, a: Action)
    requires CpuOk(s)
    ensures CpuOk(HandlerStep(s, a))
  {
  }

  lemma NextKeeps(s: Cpu, a: Action)
    requires CpuOk(s)
    ensures CpuOk(Next(s, a))
  {
    if a.SetInterrupts? || a.Callback? {
    } else {
      hide CpuOk, LockStep, DropStep, SwitchStep, NewTaskStep, HandlerStep;
      LockKeeps(s, a);
      DropKeeps(s, a);
      NewTaskKeeps(s);
      HandlerKeeps(s, a);
      if a.SwitchTo? {
        SwitchKeeps(s, a.task);
      }
    }
  }

  /** While the lock is held, interrupts are off. */
  lemma MaskedWhileHeld(s: Cpu)
    requires CpuOk(s) && s.held
    ensures !s.interrupts && (s.Current().Inner().Holding? || s.Current().Inner().Dropping?)
  {
  }

  /** `lock` and the timer callback of `sleep` find the mutex free: taking it never spins. */
  lemma MutexIsFree(s: Cpu)
    requires CpuOk(s) && (s.Current().Inner().Saved? || s.Current().isr == Some(Free))
    ensures !s.held
  {
  }

  /** The drop of the guard leaves the interrupt flag that the caller's own `lock` found. */
  lemma DropRestores(s: Cpu)
    requires CpuOk(s) && s.Current().Inner().Unlocked?
    ensures Open(s.log, s.Who()) == Some(Next(s, Restore).interrupts)
  {
    assert Open(s.log, s.Who()) == Pending(s.Current(), s.Who().handler);
  }

  /** A step leaves all tasks alone but the running one and one that it resumes. */
  lemma OthersKept(s: Cpu, a: Action, i: nat)
    requires s.running < |s.tasks| && i < |s.tasks| && i != s.running && a != SwitchTo(i)
    ensures |s.tasks| <= |Next(s, a).tasks| && Next(s, a).tasks[i] == s.tasks[i]
  {
  }

  /** The state after a run. */
  ghost function After(s: Cpu, actions: seq<Action>): Cpu
    requires CpuOk(s)
    decreases |actions|
  {
    if actions == [] then s
    else
      NextKeeps(s, actions[0]);
      After(Next(s, actions[0]), actions[1..])
  }

  /** Over every run, with interrupts and switches anywhere they can occur: interrupts are off while the lock is held,
      every acquisition is released exactly once, and every drop restores the flag that the caller's own `lock`
      found. */
  lemma {:induction false} RunsKeep(s: Cpu, actions: seq<Action>)
    requires CpuOk(s)
    ensures
      var t := After(s, actions);
      && CpuOk(t) && Restores(t.log) && (t.held ==> !t.interrupts)
      && t.acquired == t.released + (if t.held then 1 else 0)
    decreases |actions|
  {
    if actions == [] {
      if s.held {
        MaskedWhileHeld(s);
      }
    } else {
      hide CpuOk, Next, Restores;
      NextKeeps(s, actions[0]);
      RunsKeep(Next(s, actions[0]), actions[1..]);
    }
  }

  // ---- the steps lead somewhere ------------------------------------------

  lemma AfterStep(s: Cpu, a: Action, rest: seq<Action>)
    requires CpuOk(s)
    ensures CpuOk(Next(s, a)) && After(s, [a] + rest) == After(Next(s, a), rest)
  {
    hide CpuOk, Next;
    NextKeeps(s, a);
    assert ([a] + rest)[1..] == rest;
  }

  /** Whoever holds the lock, by its own `lock` or by a switch, releases it in three steps, and has its saved flag. */
  lemma Releases(s: Cpu)
    requires CpuOk(s) && s.Current().Inner().Holding?
    ensures
      var t := After(s, [ReadBack, Unlock, Restore]);
      && t.running == s.running && |t.tasks| == |s.tasks| && t.Current() == s.Current().Goto(Free)
      && !t.held && t.acquired == s.acquired && t.released == s.released + 1 && t.interrupts == s.Current().flag
      && t.log == s.log + [Restored(s.Who(), s.Current().flag)]
  {
    hide After, LogOk;
    var s1 := Next(s, ReadBack);
    var s2 := Next(s1, Unlock);
    AfterStep(s, ReadBack, [Unlock, Restore]);
    AfterStep(s1, Unlock, [Restore]);
    AfterStep(s2, Restore, []);
    assert [ReadBack] + [Unlock, Restore] == [ReadBack, Unlock, Restore] && [Unlock] + [Restore] == [Unlock, Restore];
    assert [Restore] + [] == [Restore];
    AfterNone(Next(s2, Restore));
  }

  lemma AfterNone(s: Cpu)
    requires CpuOk(s)
    ensures After(s, []) == s
  {
  }

  /** `lock` takes the mutex in four steps, with interrupts off and the flag saved that it found. */
  lemma Acquires(s: Cpu)
    requires CpuOk(s) && s.Current().Inner().Free?
    ensures
      var t := After(s, [Sample, Mask, Save, Acquire]);
      && CpuOk(t) && t.running == s.running && |t.tasks| == |s.tasks|
      && t.Current() == s.Current().Goto(Holding).(flag := s.interrupts)
      && t.held && !t.interrupts && t.acquired == s.acquired + 1 && t.released == s.released
  {
    hide After, LogOk;
    var s1 := Next(s, Sample);
    var s2 := Next(s1, Mask);
    var s3 := Next(s2, Save);
    AfterStep(s, Sample, [Mask, Save, Acquire]);
    AfterStep(s1, Mask, [Save, Acquire]);
    AfterStep(s2, Save, [Acquire]);
    AfterStep(s3, Acquire, []);
    assert [Sample] + [Mask, Save, Acquire] == [Sample, Mask, Save, Acquire] && [Acquire] + [] == [Acquire];
    assert [Mask] + [Save, Acquire] == [Mask, Save, Acquire] && [Save] + [Acquire] == [Save, Acquire];
    AfterNone(Next(s3, Acquire));
  }

  lemma {:induction false} AfterBoth(s: Cpu, xs: seq<Action>, ys: seq<Action>)
    requires CpuOk(s)
    ensures CpuOk(After(s, xs)) && After(s, xs + ys) == After(After(s, xs), ys)
    decreases |xs|
  {
    hide RunningOk, SuspendedOk, LogOk, Next;
    RunsKeep(s, xs);
    if xs == [] {
      assert xs + ys == ys;
    } else {
      NextKeeps(s, xs[0]);
      AfterBoth(Next(s, xs[0]), xs[1..], ys);
      assert (xs + ys)[1..] == xs[1..] + ys;
    }
  }

  /** `lock` and the drop of its guard: the mutex has been taken and released once, and the flag is as before. */
  lemma LockAndDrop(s: Cpu)
    requires CpuOk(s) && s.Current().Inner().Free?
    ensures
      var t := After(s, [Sample, Mask, Save, Acquire, ReadBack, Unlock, Restore]);
      && t.running == s.running && |t.tasks| == |s.tasks| && t.Current().Inner().Free? && !t.held
      && t.acquired == s.acquired + 1 && t.released == s.released + 1 && t.interrupts == s.interrupts
  {
    hide After, LogOk, RunningOk, SuspendedOk;
    Acquires(s);
    var xs, ys := [Sample, Mask, Save, Acquire], [ReadBack, Unlock, Restore];
    AfterBoth(s, xs, ys);
    assert xs + ys == [Sample, Mask, Save, Acquire, ReadBack, Unlock, Restore];
    Releases(After(s, xs));
  }

  /** A task that holds the lock hands it to any other, which then has it and may release it. */
  lemma HandsOver(s: Cpu, to: nat)
    requires CpuOk(s) && s.Current().Inner().Holding? && to < |s.tasks| && to != s.running
    ensures
      var t := Next(s, SwitchTo(to));
      && CpuOk(t) && t.running == to && t.Current().Inner().Holding? && t.held && t.acquired == s.acquired
      && t.tasks[s.running].Inner() == Suspended && forall i: nat | i < |s.tasks| :: t.tasks[i].flag == s.tasks[i].flag
  {
    SwitchKeeps(s, to);
  }

  /** What a task sets the flag to outside the lock is what it has after `lock` and the drop of the guard. */
  lemma OwnFlagLasts(s: Cpu, on: bool)
    requires CpuOk(s) && s.Current().isr.None? && s.Current().main.Free?
    ensures
      var t := After(s, [SetInterrupts(on)] + [Sample, Mask, Save, Acquire, ReadBack, Unlock, Restore]);
      && t.running == s.running && |t.tasks| == |s.tasks| && t.Current().Inner().Free? && !t.held
      && t.interrupts == on && t.released == s.released + 1
  {
    hide After, LogOk, RunningOk, SuspendedOk;
    AfterStep(s, SetInterrupts(on), [Sample, Mask, Save, Acquire, ReadBack, Unlock, Restore]);
    LockAndDrop(Next(s, SetInterrupts(on)));
  }

  /** A new task, once switched to, releases the lock that its creator took, and runs with interrupts on. */
  lemma NewTaskEnters(s: Cpu)
    requires CpuOk(s) && s.Current().Inner().Holding?
    ensures
      var t := After(s, [NewTask, SwitchTo(|s.tasks|)] + [ReadBack, Unlock, Restore]);
      && t.running == |s.tasks| && |t.tasks| == |s.tasks| + 1 && t.Current() == Task(true, Free, None)
      && !t.held && t.interrupts && t.acquired == s.acquired && t.released == s.released + 1
  {
    hide After, LogOk, RunningOk, SuspendedOk;
    var s1 := Next(s, NewTask);
    var s2 := Next(s1, SwitchTo(|s.tasks|));
    AfterStep(s, NewTask, [SwitchTo(|s.tasks|)]);
    AfterStep(s1, SwitchTo(|s.tasks|), []);
    assert [NewTask] + [SwitchTo(|s.tasks|)] == [NewTask, SwitchTo(|s.tasks|)];
    assert [SwitchTo(|s.tasks|)] + [] == [SwitchTo(|s.tasks|)];
    AfterNone(s2);
    AfterBoth(s, [NewTask, SwitchTo(|s.tasks|)], [ReadBack, Unlock, Restore]);
    Releases(s2);
  }

  /** An interrupt runs its handler with interrupts off, and afterwards the task goes on as it was; the timer callback
      takes and releases the mutex once. */
  lemma HandlerRuns(s: Cpu)
    requires CpuOk(s) && s.interrupts
    ensures
      var t := Next(s, Interrupt);
      && t.Current().isr == Some(Free) && !t.interrupts
      && Next(t, Return) == s && Next(t, Callback) == t.(acquired := s.acquired + 1, released := s.released + 1)
  {
    assert s.Current().isr.None?;
    assert Next(Next(s, Interrupt), Return).tasks == s.tasks;
  }

  // ---- the machine -------------------------------------------------------

  class Processor {
    var held: bool
    var interrupts: bool
    var running: nat
    var tasks: seq<Task>
    ghost var acquired: nat
    ghost var released: nat
    ghost var log: seq<Mark>

    ghost function State(): Cpu
      reads this
    {
      Cpu(held, interrupts, running, tasks, acquired, released, log)
    }

    constructor ()
      ensures CpuOk(State()) && acquired == 0 && log == []
    {
      held, interrupts, running := false, false, 0;
      tasks := [Task(false, Free, None)];
      acquired, released, log := 0, 0, [];
    }

    ghost function Who(): Caller
      requires running < |tasks|
      reads this
    {
      Caller(running, tasks[running].isr.Some?)
    }

    /** `lock`. The saved flag is the flag found. */
    method Lock(a: Action)
      requires CpuOk(State()) && a in {Sample, Mask, Save, Acquire}
      modifies this
      ensures State() == LockStep(old(State()), a) && CpuOk(State())
    {
      hide RunningOk, SuspendedOk, LogOk;
      LockKeeps(State(), a);
      var t := tasks[running];
      match (a, t.Inner()) {
        case (Sample, Free) =>
          log := log + [Found(Who(), interrupts)];
          tasks := tasks[running := t.Goto(Sampled(interrupts))];
        case (Mask, Sampled(w)) =>
          interrupts := false;
          tasks := tasks[running := t.Goto(Masked(w))];
        case (Save, Masked(w)) =>
          tasks := tasks[running := t.Goto(Saved).(flag := w)];
        case (Acquire, Saved) =>
          held := true;
          acquired := acquired + 1;
          tasks := tasks[running := t.Goto(Holding)];
        case _ =>
      }
    }

    /** The drop of the guard. */
    method Drop(a: Action)
      requires CpuOk(State()) && a in {ReadBack, Unlock, Restore}
      modifies this
      ensures State() == DropStep(old(State()), a) && CpuOk(State())
      ensures a.Restore? && old(tasks)[running].Inner().Unlocked? ==>
                Open(old(log), old(State()).Who()) == Some(interrupts)
    {
      hide RunningOk, SuspendedOk, LogOk;
      DropKeeps(State(), a);
      var t := tasks[running];
      match (a, t.Inner()) {
        case (ReadBack, Holding) =>
          tasks := tasks[running := t.Goto(Dropping(t.flag))];
        case (Unlock, Dropping(r)) =>
          held := false;
          released := released + 1;
          tasks := tasks[running := t.Goto(Unlocked(r))];
        case (Restore, Unlocked(r)) =>
          DropRestores(State());
          if r {
            interrupts := true;
          }
          log := log + [Restored(Who(), interrupts)];
          tasks := tasks[running := t.Goto(Free)];
        case _ =>
      }
    }

    /** `_do_switch`, with the guard of the task that leaves. */
    method SwitchTo(to: nat)
      requires CpuOk(State())
      modifies this`running, this`tasks
      ensures State() == SwitchStep(old(State()), to) && CpuOk(State())
      ensures old(tasks)[old(running)].Inner().Holding? && to < |tasks| ==>
                && running == to && tasks[to].Inner().Holding?
                && forall i: nat | i < |tasks| :: tasks[i].flag == old(tasks)[i].flag
    {
      SwitchKeeps(State(), to);
      var t := tasks[running];
      if t.Inner().Holding? && to < |tasks| && to != running {
        var u := tasks[to];
        tasks := tasks[running := t.Goto(Suspended)][to := u.Goto(Holding)];
        running := to;
      }
    }

    /** `new_task`: the new task will enter through the drop of a guard, with interrupts on. */
    method NewTask()
      requires CpuOk(State())
      modifies this`tasks, this`log
      ensures State() == NewTaskStep(old(State())) && CpuOk(State())
      ensures tasks == old(tasks) + if old(tasks)[running].Inner().Holding? then [Task(true, Suspended, None)] else []
    {
      NewTaskKeeps(State());
      if tasks[running].Inner().Holding? {
        log := log + [Created(Caller(|tasks|, false))];
        tasks := tasks + [Task(true, Suspended, None)];
      }
    }

    /** An interrupt arrives, if interrupts are on; its handler returns. */
    method Handler(a: Action)
      requires CpuOk(State()) && a in {Interrupt, Return}
      modifies this`interrupts, this`tasks
      ensures State() == HandlerStep(old(State()), a) && CpuOk(State())
    {
      HandlerKeeps(State(), a);
      var t := tasks[running];
      if a == Interrupt && interrupts {
        tasks := tasks[running := t.(isr := Some(Free))];
        interrupts := false;
      } else if a == Return && t.isr == Some(Free) {
        tasks := tasks[running := t.(isr := None)];
        interrupts := true;
      }
    }

    /** The timer callback of `sleep`, which takes and releases the mutex itself, inside a handler. */
    method Callback()
      requires CpuOk(State())
      modifies this`acquired, this`released
      ensures State() == CallbackStep(old(State())) && CpuOk(State())
      ensures acquired > old(acquired) ==> !held
    {
      if tasks[running].isr == Some(Free) {
        MutexIsFree(State());
        acquired, released := acquired + 1, released + 1;
      }
    }

    method SetOwn(on: bool)
      requires CpuOk(State())
      modifies this`interrupts
      ensures State() == OwnStep(old(State()), on) && CpuOk(State())
    {
      if tasks[running].isr.None? && tasks[running].main.Free? {
        interrupts := on;
      }
    }

    method Act(a: Action)
      requires CpuOk(State())
      modifies this
      ensures State() == Next(old(State()), a) && CpuOk(State())
    {
      hide CpuOk, LockStep, DropStep, SwitchStep, NewTaskStep, HandlerStep, CallbackStep, OwnStep;
      match a {
        case SetInterrupts(on) => SetOwn(on);
        case SwitchTo(to) => SwitchTo(to);
        case NewTask => NewTask();
        case Callback => Callback();
        case Interrupt => Handler(a);
        case Return => Handler(a);
        case ReadBack => Drop(a);
        case Unlock => Drop(a);
        case Restore => Drop(a);
        case Sample => Lock(a);
        case Mask => Lock(a);
        case Save => Lock(a);
        case Acquire => Lock(a);
      }
    }

    /** Any run. */
    method Run(actions: seq<Action>)
      requires CpuOk(State())
      modifies this
      ensures State() == After(old(State()), actions) && CpuOk(State())
      ensures Restores(log) && (held ==> !interrupts) && acquired == released + if held then 1 else 0
    {
      hide CpuOk, Next, Restores;
      ghost var s := State();
      RunsKeep(s, actions);
      for n := 0 to |actions|
        invariant CpuOk(State()) && After(State(), actions[n..]) == After(s, actions)
      {
        assert actions[n..][0] == actions[n] && actions[n..][1..] == actions[n + 1..];
        Act(actions[n]);
      }
    }
  }
}
