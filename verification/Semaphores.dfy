/** The counting semaphore, as the interleaving of its atomic sections: the attempt on the counter (under the
    scheduler lock, together with enqueueing and blocking if it fails), taking one task off the opposite queue,
    and waking it. `wait` and `signal` mirror each other, so every section is written once for both. */
module Semaphores {

  datatype Op = Wait | Signal
  {
    function Opposite(): Op { if Wait? then Signal else Wait }
  }

  /** Where a task is. */
  datatype Pc =
    | Outside
    | Trying(op: Op, retry: bool)   // before the attempt; `retry` after being woken
    | Popping(op: Op)               // the attempt succeeded
    | Waking(op: Op, task: nat)     // holds a task it took off the opposite queue
    | Blocked(op: Op)

  function Tally(pcs: seq<Pc>, f: Pc -> bool): nat {
    if pcs == [] then 0 else Tally(pcs[..|pcs| - 1], f) + if f(pcs[|pcs| - 1]) then 1 else 0
  }

  lemma {:induction false} TallyUpdate(pcs: seq<Pc>, i: nat, x: Pc, f: Pc -> bool)
    requires i < |pcs|
    ensures Tally(pcs[i := x], f) + (if f(pcs[i]) then 1 else 0) == Tally(pcs, f) + (if f(x) then 1 else 0)
  {
    var n := |pcs| - 1;
    if i == n {
      assert pcs[i := x][..n] == pcs[..n];
    } else {
      assert pcs[i := x][..n] == pcs[..n][i := x];
      TallyUpdate(pcs[..n], i, x, f);
    }
  }

  /** The task is on its way to use a permit on behalf of the queue of `op`: it has changed the counter but
      not yet popped, or it is about to wake a popped task, or it is a popped task about to retry. */
  function Helps(op: Op): Pc -> bool {
    (pc: Pc) => pc == Popping(op.Opposite()) || (pc.Waking? && pc.op == op.Opposite()) || pc == Trying(op, true)
  }

  /** `waits` and `signals` count the successful attempts. */
  datatype State = State(count: int, max: int, waiting: seq<nat>, releasing: seq<nat>, pcs: seq<Pc>, waits: nat,
                         signals: nat)
  {
    /** The permits there were at the start. */
    function Initial(): int { count + waits - signals }

    function Queue(op: Op): seq<nat> { if op.Wait? then waiting else releasing }

    /** How often the counter admits the operation. */
    function Level(op: Op): int { if op.Wait? then count else max - count }

    function SetQueue(op: Op, q: seq<nat>): State {
      if op.Wait? then this.(waiting := q) else this.(releasing := q)
    }

    /** One `wait` or one `signal` on the counter. */
    function Use(op: Op): State {
      if op.Wait? then this.(count := count - 1, waits := waits + 1)
      else this.(count := count + 1, signals := signals + 1)
    }

    function Goto(t: nat, pc: Pc): State
      requires t < |pcs|
    {
      this.(pcs := pcs[t := pc])
    }
  }

  // ---- the sections ------------------------------------------------------

  /** One turn of the loop of `wait` or `signal`. */
  function AfterAttempt(s: State, t: nat): State
    requires t < |s.pcs| && s.pcs[t].Trying?
  {
    var op := s.pcs[t].op;
    if s.Level(op) > 0 then s.Use(op).Goto(t, Popping(op))
    else s.SetQueue(op, s.Queue(op) + [t]).Goto(t, Blocked(op))
  }

  /** The first step of `try_wait` or `try_signal`, which gives up instead of blocking. */
  function AfterAttemptOnce(s: State, t: nat, op: Op): State
    requires t < |s.pcs| && s.pcs[t] == Outside
  {
    if s.Level(op) > 0 then s.Use(op).Goto(t, Popping(op)) else s
  }

  function AfterPop(s: State, t: nat): State
    requires t < |s.pcs| && s.pcs[t].Popping?
  {
    var op := s.pcs[t].op;
    var q := s.Queue(op.Opposite());
    if q == [] then s.Goto(t, Outside)
    else s.SetQueue(op.Opposite(), q[1..]).Goto(t, Waking(op, q[0]))
  }

  function AfterWake(s: State, t: nat): State
    requires t < |s.pcs| && s.pcs[t].Waking? && s.pcs[t].task < |s.pcs|
  {
    s.Goto(s.pcs[t].task, Trying(s.pcs[t].op.Opposite(), true)).Goto(t, Outside)
  }

  // ---- the invariant -----------------------------------------------------

  ghost predicate Distinct(q: seq<nat>) { forall i: nat, j: nat | i < j < |q| :: q[i] != q[j] }

  /** Queued tasks are blocked in the operation of their queue. */
  ghost predicate QueueOk(s: State, op: Op) {
    && Distinct(s.Queue(op))
    && (forall t | t in s.Queue(op) :: t < |s.pcs| && s.pcs[t] == Blocked(op))
  }

  /** A task that has been popped is blocked, is no longer queued, and is held by one waker only. */
  ghost predicate WakerOk(s: State, w: nat)
    requires w < |s.pcs|
  {
    s.pcs[w].Waking? ==>
      var t, op := s.pcs[w].task, s.pcs[w].op.Opposite();
      && t < |s.pcs| && s.pcs[t] == Blocked(op) && t !in s.Queue(op)
      && (forall v: nat | v < |s.pcs| && v != w && s.pcs[v].Waking? :: s.pcs[v].task != t)
  }

  /** Nobody is forgotten: a blocked task is queued, or somebody is about to wake it. */
  ghost predicate Remembered(s: State, t: nat)
    requires t < |s.pcs|
  {
    s.pcs[t].Blocked? ==>
      || t in s.Queue(s.pcs[t].op)
      || exists w: nat :: w < |s.pcs| && s.pcs[w] == Waking(s.pcs[t].op.Opposite(), t)
  }

  /** No lost wakeup: while tasks are queued, every permit they could use is already on its way to them. */
  ghost predicate NoLostWakeup(s: State, op: Op) {
    s.Queue(op) != [] ==> s.Level(op) <= Tally(s.pcs, Helps(op))
  }

  ghost predicate Placed(s: State) {
    && QueueOk(s, Wait) && QueueOk(s, Signal)
    && (forall w: nat | w < |s.pcs| :: WakerOk(s, w))
    && (forall t: nat | t < |s.pcs| :: Remembered(s, t))
  }

  ghost predicate Inv(s: State) {
    0 <= s.count <= s.max && Placed(s) && NoLostWakeup(s, Wait) && NoLostWakeup(s, Signal)
  }

  // ---- every section keeps it --------------------------------------------

  /** Moves that involve neither a blocked task nor a waker. */
  lemma MovePlaced(s: State, s': State, t: nat, pc: Pc)
    requires Placed(s) && t < |s.pcs| && s'.pcs == s.pcs[t := pc] && s'.waiting == s.waiting
    requires s'.releasing == s.releasing
    requires !s.pcs[t].Blocked? && !s.pcs[t].Waking? && !pc.Blocked? && !pc.Waking?
    ensures Placed(s')
  {
    forall u: nat | u < |s'.pcs| ensures Remembered(s', u) {
      assert Remembered(s, u);
      if s'.pcs[u].Blocked? && u !in s'.Queue(s'.pcs[u].op) {
        var w: nat :| w < |s.pcs| && s.pcs[w] == Waking(s.pcs[u].op.Opposite(), u);
        assert s'.pcs[w] == s.pcs[w];
      }
    }
    forall w: nat | w < |s'.pcs| ensures WakerOk(s', w) {
      assert WakerOk(s, w);
    }
  }

  lemma MoveTally(s: State, t: nat, pc: Pc)
    requires t < |s.pcs|
    ensures forall op :: Tally(s.pcs[t := pc], Helps(op)) + (if Helps(op)(s.pcs[t]) then 1 else 0)
                      == Tally(s.pcs, Helps(op)) + (if Helps(op)(pc) then 1 else 0)
  {
    TallyUpdate(s.pcs, t, pc, Helps(Wait));
    TallyUpdate(s.pcs, t, pc, Helps(Signal));
  }

  lemma BeginKeeps(s: State, t: nat, op: Op)
    requires Inv(s) && t < |s.pcs| && s.pcs[t] == Outside
    ensures Inv(s.Goto(t, Trying(op, false)))
  {
    MovePlaced(s, s.Goto(t, Trying(op, false)), t, Trying(op, false));
    MoveTally(s, t, Trying(op, false));
  }

  lemma SucceedKeeps(s: State, t: nat, op: Op)
    requires Inv(s) && t < |s.pcs| && (s.pcs[t] == Outside || (s.pcs[t].Trying? && s.pcs[t].op == op))
    requires s.Level(op) > 0
    ensures Inv(s.Use(op).Goto(t, Popping(op)))
  {
    MovePlaced(s, s.Use(op).Goto(t, Popping(op)), t, Popping(op));
    MoveTally(s, t, Popping(op));
  }

  lemma BlockQueues(s: State, t: nat, op: Op)
    requires QueueOk(s, Wait) && QueueOk(s, Signal) && t < |s.pcs| && s.pcs[t].Trying?
    ensures
      var s' := s.SetQueue(op, s.Queue(op) + [t]).Goto(t, Blocked(op));
      QueueOk(s', Wait) && QueueOk(s', Signal)
  {
    var s' := s.SetQueue(op, s.Queue(op) + [t]).Goto(t, Blocked(op));
    forall o: Op ensures QueueOk(s', o) {
      assert QueueOk(s, o) && t !in s.Queue(o);
      forall x | x in s'.Queue(o) ensures x < |s'.pcs| && s'.pcs[x] == Blocked(o) {
        assert x in s.Queue(o) || x == t;
      }
    }
  }

  lemma BlockPlaced(s: State, t: nat, op: Op)
    requires Placed(s) && t < |s.pcs| && s.pcs[t] in {Trying(op, true), Trying(op, false)}
    ensures Placed(s.SetQueue(op, s.Queue(op) + [t]).Goto(t, Blocked(op)))
  {
    hide QueueOk;
    var s' := s.SetQueue(op, s.Queue(op) + [t]).Goto(t, Blocked(op));
    BlockQueues(s, t, op);
    forall u: nat | u < |s'.pcs| ensures Remembered(s', u) {
      assert Remembered(s, u);
      if u != t && s'.pcs[u].Blocked? && u !in s.Queue(s'.pcs[u].op) {
        var w: nat :| w < |s.pcs| && s.pcs[w] == Waking(s.pcs[u].op.Opposite(), u);
        assert s'.pcs[w] == s.pcs[w];
      }
    }
    forall w: nat | w < |s'.pcs| ensures WakerOk(s', w) {
      assert WakerOk(s, w);
    }
  }

  lemma BlockKeeps(s: State, t: nat, op: Op)
    requires Inv(s) && t < |s.pcs| && s.pcs[t].Trying? && s.pcs[t].op == op && s.Level(op) <= 0
    ensures Inv(s.SetQueue(op, s.Queue(op) + [t]).Goto(t, Blocked(op)))
  {
    hide Placed;
    MoveTally(s, t, Blocked(op));
    BlockPlaced(s, t, op);
  }

  lemma AttemptKeeps(s: State, t: nat)
    requires Inv(s) && t < |s.pcs| && s.pcs[t].Trying?
    ensures Inv(AfterAttempt(s, t))
  {
    if s.Level(s.pcs[t].op) > 0 {
      SucceedKeeps(s, t, s.pcs[t].op);
    } else {
      BlockKeeps(s, t, s.pcs[t].op);
    }
  }

  lemma HeadApart(q: seq<nat>)
    requires q != [] && Distinct(q)
    ensures forall x | x in q[1..] :: x in q && x != q[0]
  {
    forall x | x in q[1..] ensures x in q && x != q[0] {
      var i: nat :| i < |q| - 1 && q[1..][i] == x;
      assert q[i + 1] == x;
    }
  }

  /** The popped task leaves its queue, and no waker held it. */
  lemma PopHead(s: State, t: nat)
    requires Placed(s) && t < |s.pcs| && s.pcs[t].Popping? && s.Queue(s.pcs[t].op.Opposite()) != []
    ensures
      var q := s.Queue(s.pcs[t].op.Opposite());
      && q[0] < |s.pcs| && q[0] != t && s.pcs[q[0]] == Blocked(s.pcs[t].op.Opposite()) && q[0] !in q[1..]
      && (forall x | x in q[1..] :: x in q && x != q[0])
      && (forall v: nat | v < |s.pcs| && s.pcs[v].Waking? :: s.pcs[v].task != q[0])
  {
    var q := s.Queue(s.pcs[t].op.Opposite());
    assert QueueOk(s, s.pcs[t].op.Opposite());
    HeadApart(q);
    assert q[0] in q;
    forall v: nat | v < |s.pcs| && s.pcs[v].Waking? ensures s.pcs[v].task != q[0] {
      assert WakerOk(s, v);
    }
  }

  lemma PopQueues(s: State, t: nat)
    requires Placed(s) && t < |s.pcs| && s.pcs[t].Popping? && s.Queue(s.pcs[t].op.Opposite()) != []
    ensures QueueOk(AfterPop(s, t), Wait) && QueueOk(AfterPop(s, t), Signal)
  {
    var s', q := AfterPop(s, t), s.Queue(s.pcs[t].op.Opposite());
    forall o: Op ensures QueueOk(s', o) {
      assert QueueOk(s, o);
      forall x | x in s'.Queue(o) ensures x < |s'.pcs| && s'.pcs[x] == Blocked(o) {
        assert x in s.Queue(o);
      }
    }
  }

  lemma PopPlaced(s: State, t: nat)
    requires Placed(s) && t < |s.pcs| && s.pcs[t].Popping? && s.Queue(s.pcs[t].op.Opposite()) != []
    ensures Placed(AfterPop(s, t))
  {
    hide QueueOk;
    var op := s.pcs[t].op;
    var s', q := AfterPop(s, t), s.Queue(op.Opposite());
    PopHead(s, t);
    PopQueues(s, t);
    assert q == [q[0]] + q[1..];
    forall u: nat | u < |s'.pcs| ensures Remembered(s', u) {
      assert Remembered(s, u);
      if u == q[0] {
        assert s'.pcs[t] == Waking(op, u);
      } else if s'.pcs[u].Blocked? && u !in s.Queue(s'.pcs[u].op) {
        var w: nat :| w < |s.pcs| && s.pcs[w] == Waking(s.pcs[u].op.Opposite(), u);
        assert s'.pcs[w] == s.pcs[w];
      }
    }
    forall w: nat | w < |s'.pcs| ensures WakerOk(s', w) {
      assert WakerOk(s, w);
    }
  }

  lemma PopKeeps(s: State, t: nat)
    requires Inv(s) && t < |s.pcs| && s.pcs[t].Popping?
    ensures Inv(AfterPop(s, t))
  {
    hide Placed;
    var op := s.pcs[t].op;
    var q := s.Queue(op.Opposite());
    if q == [] {
      MovePlaced(s, AfterPop(s, t), t, Outside);
      MoveTally(s, t, Outside);
    } else {
      MoveTally(s, t, Waking(op, q[0]));
      PopPlaced(s, t);
    }
  }

  lemma WakePlaced(s: State, t: nat)
    requires Placed(s) && t < |s.pcs| && s.pcs[t].Waking?
    ensures s.pcs[t].task < |s.pcs| && s.pcs[t].task != t && s.pcs[s.pcs[t].task] == Blocked(s.pcs[t].op.Opposite())
    ensures Placed(AfterWake(s, t))
  {
    assert WakerOk(s, t);
    var op, x := s.pcs[t].op.Opposite(), s.pcs[t].task;
    var s' := AfterWake(s, t);
    forall o: Op ensures QueueOk(s', o) {
      assert QueueOk(s, o);
    }
    forall u: nat | u < |s'.pcs| ensures Remembered(s', u) {
      assert Remembered(s, u);
      if s'.pcs[u].Blocked? && u !in s'.Queue(s'.pcs[u].op) {
        var w: nat :| w < |s.pcs| && s.pcs[w] == Waking(s.pcs[u].op.Opposite(), u);
        assert s'.pcs[w] == s.pcs[w];
      }
    }
    forall w: nat | w < |s'.pcs| ensures WakerOk(s', w) {
      assert WakerOk(s, w);
    }
  }

  lemma WakeKeeps(s: State, t: nat)
    requires Inv(s) && t < |s.pcs| && s.pcs[t].Waking?
    ensures s.pcs[t].task < |s.pcs| && Inv(AfterWake(s, t))
  {
    hide Placed;
    WakePlaced(s, t);
    var op, x := s.pcs[t].op.Opposite(), s.pcs[t].task;
    MoveTally(s, x, Trying(op, true));
    MoveTally(s.Goto(x, Trying(op, true)), t, Outside);
  }

  /** Hence, when no permit is on its way, queued tasks wait for good reason. */
  lemma QuietMeansNone(s: State, op: Op)
    requires Inv(s) && s.Queue(op) != [] && forall t: nat | t < |s.pcs| :: !Helps(op)(s.pcs[t])
    ensures s.Level(op) == 0
  {
    NoHelp(s.pcs, op);
  }

  lemma {:induction false} NoHelp(pcs: seq<Pc>, op: Op)
    requires forall t: nat | t < |pcs| :: !Helps(op)(pcs[t])
    ensures Tally(pcs, Helps(op)) == 0
  {
    if pcs != [] {
      NoHelp(pcs[..|pcs| - 1], op);
    }
  }

  lemma {:induction false} SomeHelp(pcs: seq<Pc>, op: Op) returns (t: nat)
    requires Tally(pcs, Helps(op)) > 0
    ensures t < |pcs| && Helps(op)(pcs[t])
  {
    t := |pcs| - 1;
    if !Helps(op)(pcs[t]) {
      t := SomeHelp(pcs[..t], op);
    }
  }

  // ---- runs --------------------------------------------------------------

  /** What the scheduler lets happen next: a task enters an operation, or runs its next section. */
  datatype Move = Enter(task: nat, op: Op) | TryOnce(task: nat, op: Op) | Continue(task: nat)

  /** The state after one move; a task that is not there, or is blocked, does nothing. */
  function Step(s: State, m: Move): State {
    if m.task >= |s.pcs| then s
    else match (m, s.pcs[m.task])
      case (Enter(t, op), Outside) => s.Goto(t, Trying(op, false))
      case (TryOnce(t, op), Outside) => AfterAttemptOnce(s, t, op)
      case (Continue(t), Trying(_, _)) => AfterAttempt(s, t)
      case (Continue(t), Popping(_)) => AfterPop(s, t)
      case (Continue(t), Waking(_, x)) => if x < |s.pcs| then AfterWake(s, t) else s
      case _ => s
  }

  lemma StepKeeps(s: State, m: Move)
    requires Inv(s)
    ensures Inv(Step(s, m)) && |Step(s, m).pcs| == |s.pcs| && Step(s, m).Initial() == s.Initial()
    ensures Step(s, m).max == s.max
  {
    hide Inv;
    var t := m.task;
    if t < |s.pcs| {
      match (m, s.pcs[t])
      case (Enter(_, op), Outside) => BeginKeeps(s, t, op);
      case (TryOnce(_, op), Outside) =>
        if s.Level(op) > 0 {
          SucceedKeeps(s, t, op);
        }
      case (Continue(_), Trying(_, _)) => AttemptKeeps(s, t);
      case (Continue(_), Popping(_)) => PopKeeps(s, t);
      case (Continue(_), Waking(_, _)) => WakeKeeps(s, t);
      case _ =>
    }
  }

  /** Where the tasks are after a move. */
  lemma StepMoves(s: State, m: Move)
    requires Inv(s) && m.task < |s.pcs|
    ensures
      var t, pc, pcs := m.task, s.pcs[m.task], Step(s, m).pcs;
      && |pcs| == |s.pcs|
      && (m.Continue? && pc.Waking? ==>
            && pc.task < |s.pcs| && pc.task != t && s.pcs[pc.task].Blocked?
            && pcs == s.pcs[pc.task := Trying(pc.op.Opposite(), true)][t := Outside])
      && (!(m.Continue? && pc.Waking?) ==> pcs == s.pcs[t := pcs[t]])
      && (pcs[t].Blocked? <==> pc.Blocked? || (m.Continue? && pc.Trying? && s.Level(pc.op) <= 0))
  {
    if m.Continue? && s.pcs[m.task].Waking? {
      assert WakerOk(s, m.task);
    }
  }

  /** A new task starts outside. */
  function Grown(s: State): State { s.(pcs := s.pcs + [Outside]) }

  lemma GrownKeeps(s: State)
    requires Inv(s)
    ensures Inv(Grown(s))
  {
    var s' := Grown(s);
    assert s'.pcs[..|s.pcs|] == s.pcs;
    forall o: Op ensures QueueOk(s', o) {
      assert QueueOk(s, o);
    }
    forall u: nat | u < |s'.pcs| ensures Remembered(s', u) {
      if u < |s.pcs| && s'.pcs[u].Blocked? && u !in s'.Queue(s'.pcs[u].op) {
        assert Remembered(s, u);
        var w: nat :| w < |s.pcs| && s.pcs[w] == Waking(s.pcs[u].op.Opposite(), u);
        assert s'.pcs[w] == s.pcs[w];
      }
    }
    forall w: nat | w < |s'.pcs| ensures WakerOk(s', w) {
      if w < |s.pcs| {
        assert WakerOk(s, w);
      }
    }
    assert NoLostWakeup(s', Wait) && NoLostWakeup(s', Signal);
  }

  /** The state after a run. */
  function After(s: State, moves: seq<Move>): State {
    if moves == [] then s else Step(After(s, moves[..|moves| - 1]), moves[|moves| - 1])
  }

  /** At every point of every interleaving of any number of tasks: the counter is in range, permits are conserved, no
      wakeup is lost, and every blocked task is queued or about to be woken by exactly one other. */
  lemma {:induction false} RunsKeep(s: State, moves: seq<Move>, i: nat)
    requires Inv(s) && i <= |moves|
    ensures
      var t := After(s, moves[..i]);
      Inv(t) && |t.pcs| == |s.pcs| && t.Initial() == s.Initial() && t.max == s.max
    decreases i
  {
    hide Inv, Step;
    if i > 0 {
      RunsKeep(s, moves, i - 1);
      assert moves[..i][..i - 1] == moves[..i - 1];
      StepKeeps(After(s, moves[..i - 1]), moves[i - 1]);
    }
  }

  // ---- first in, first out -----------------------------------------------

  /** The task that a move blocks in the operation, and the task that it takes off the queue of the operation. */
  function BlockedBy(s: State, m: Move, s': State, op: Op): seq<nat> {
    if m.task < |s.pcs| && m.task < |s'.pcs| && !s.pcs[m.task].Blocked? && s'.pcs[m.task] == Blocked(op)
    then [m.task] else []
  }

  function TakenBy(s: State, m: Move, s': State, op: Op): seq<nat> {
    if m.task < |s.pcs| && m.task < |s'.pcs| && !s.pcs[m.task].Waking? && s'.pcs[m.task].Waking?
       && s'.pcs[m.task].op == op.Opposite()
    then [s'.pcs[m.task].task] else []
  }

  /** The tasks that block in the operation during a run, in order. */
  function AllBlocked(s: State, moves: seq<Move>, op: Op): seq<nat> {
    if moves == [] then []
    else
      var n := |moves| - 1;
      AllBlocked(s, moves[..n], op) + BlockedBy(After(s, moves[..n]), moves[n], After(s, moves), op)
  }

  /** The tasks that are taken off its queue, in order. */
  function AllTaken(s: State, moves: seq<Move>, op: Op): seq<nat> {
    if moves == [] then []
    else
      var n := |moves| - 1;
      AllTaken(s, moves[..n], op) + TakenBy(After(s, moves[..n]), moves[n], After(s, moves), op)
  }

  lemma StepQueue(s: State, m: Move, op: Op)
    ensures s.Queue(op) + BlockedBy(s, m, Step(s, m), op) == TakenBy(s, m, Step(s, m), op) + Step(s, m).Queue(op)
  {
    var s', t := Step(s, m), m.task;
    if t < |s.pcs| && m.Continue? && s.pcs[t].Trying? {
      AttemptQueue(s, t, op);
    } else if t < |s.pcs| && m.Continue? && s.pcs[t].Popping? {
      PopQueue(s, t, op);
    } else {
      assert s'.Queue(op) == s.Queue(op);
      assert BlockedBy(s, m, s', op) == [] && TakenBy(s, m, s', op) == [];
    }
  }

  lemma AttemptQueue(s: State, t: nat, op: Op)
    requires t < |s.pcs| && s.pcs[t].Trying?
    ensures
      var m, s' := Continue(t), AfterAttempt(s, t);
      TakenBy(s, m, s', op) == [] && s'.Queue(op) == s.Queue(op) + BlockedBy(s, m, s', op)
  {
    var s' := AfterAttempt(s, t);
    if s.Level(s.pcs[t].op) > 0 {
      assert s'.pcs[t].Popping?;
    } else {
      assert s'.pcs[t] == Blocked(s.pcs[t].op);
    }
  }

  lemma PopQueue(s: State, t: nat, op: Op)
    requires t < |s.pcs| && s.pcs[t].Popping?
    ensures
      var m, s' := Continue(t), AfterPop(s, t);
      BlockedBy(s, m, s', op) == [] && s.Queue(op) == TakenBy(s, m, s', op) + s'.Queue(op)
  {
    var s', q := AfterPop(s, t), s.Queue(s.pcs[t].op.Opposite());
    if q == [] {
      assert s'.pcs[t] == Outside;
    } else {
      assert s'.pcs[t] == Waking(s.pcs[t].op, q[0]) && q == [q[0]] + q[1..];
    }
  }

  lemma Chain(q: seq<nat>, a: seq<nat>, t: seq<nat>, q1: seq<nat>, b: seq<nat>, u: seq<nat>, q2: seq<nat>)
    requires q + a == t + q1 && q1 + b == u + q2
    ensures q + (a + b) == (t + u) + q2
  {
    assert q + (a + b) == (q + a) + b;
    assert (t + q1) + b == t + (q1 + b);
    assert t + (u + q2) == (t + u) + q2;
  }

  /** First in, first out, over every run: the tasks queued at the start and those that block, in this order, are the
      tasks taken off the queue and those still queued. */
  lemma {:induction false} FirstInFirstOut(s: State, moves: seq<Move>, op: Op)
    ensures s.Queue(op) + AllBlocked(s, moves, op) == AllTaken(s, moves, op) + After(s, moves).Queue(op)
  {
    hide Inv, Step, BlockedBy, TakenBy;
    if moves != [] {
      var n := |moves| - 1;
      FirstInFirstOut(s, moves[..n], op);
      var m, s' := After(s, moves[..n]), After(s, moves);
      StepQueue(m, moves[n], op);
      Chain(s.Queue(op), AllBlocked(s, moves[..n], op), AllTaken(s, moves[..n], op), m.Queue(op),
            BlockedBy(m, moves[n], s', op), TakenBy(m, moves[n], s', op), s'.Queue(op));
    }
  }

  // ---- operations end ----------------------------------------------------

  /** `wait` or `signal` with a permit: four moves count it, make the oldest task on the opposite queue try again, and
      end the operation. */
  lemma Completes(s: State, t: nat, op: Op)
    requires Inv(s) && t < |s.pcs| && s.pcs[t] == Outside && s.Level(op) > 0
    ensures
      var q, s' := s.Queue(op.Opposite()), After(s, [Enter(t, op), Continue(t), Continue(t), Continue(t)]);
      if q == [] then s' == s.Use(op)
      else
        && q[0] < |s.pcs| && q[0] != t
        && s' == s.Use(op).SetQueue(op.Opposite(), q[1..]).Goto(q[0], Trying(op.Opposite(), true))
  {
    hide Step, After;
    AfterFour(s, Enter(t, op), Continue(t));
    Counts(s, t, op);
    if s.Queue(op.Opposite()) != [] {
      HeadBlocked(s, op.Opposite());
    }
    Ends(s, s.Use(op).Goto(t, Popping(op)), t, op);
  }

  lemma HeadBlocked(s: State, op: Op)
    requires Inv(s) && s.Queue(op) != []
    ensures s.Queue(op)[0] < |s.pcs| && s.pcs[s.Queue(op)[0]] == Blocked(op)
  {
    assert QueueOk(s, op) && s.Queue(op)[0] in s.Queue(op);
  }

  lemma Counts(s: State, t: nat, op: Op)
    requires t < |s.pcs| && s.pcs[t] == Outside && s.Level(op) > 0
    ensures Step(Step(s, Enter(t, op)), Continue(t)) == s.Use(op).Goto(t, Popping(op))
  {
    var s1 := Step(s, Enter(t, op));
    assert s1 == s.Goto(t, Trying(op, false));
    assert s1.pcs[t := Popping(op)] == s.pcs[t := Popping(op)];
  }

  lemma Ends(s: State, s2: State, t: nat, op: Op)
    requires t < |s.pcs| && s.pcs[t] == Outside && s2 == s.Use(op).Goto(t, Popping(op))
    requires
      var q := s.Queue(op.Opposite());
      q != [] ==> q[0] < |s.pcs| && s.pcs[q[0]] == Blocked(op.Opposite())
    ensures
      var q, s' := s.Queue(op.Opposite()), Step(Step(s2, Continue(t)), Continue(t));
      if q == [] then s' == s.Use(op)
      else s' == s.Use(op).SetQueue(op.Opposite(), q[1..]).Goto(q[0], Trying(op.Opposite(), true))
  {
    var q := s.Queue(op.Opposite());
    var s3 := Step(s2, Continue(t));
    assert s2.Queue(op.Opposite()) == q;
    if q == [] {
      assert s3.pcs == s.pcs[t := Outside] == s.pcs;
      assert s3 == s.Use(op);
    } else {
      assert s3.pcs == s.pcs[t := Waking(op, q[0])];
      assert s3 == s2.SetQueue(op.Opposite(), q[1..]).Goto(t, Waking(op, q[0]));
      assert s3.pcs[q[0] := Trying(op.Opposite(), true)][t := Outside] == s.pcs[q[0] := Trying(op.Opposite(), true)];
    }
  }

  /** Without a permit, two moves queue the task and block it. */
  lemma Blocks(s: State, t: nat, op: Op)
    requires Inv(s) && t < |s.pcs| && s.pcs[t] == Outside && s.Level(op) <= 0
    ensures After(s, [Enter(t, op), Continue(t)]) == s.SetQueue(op, s.Queue(op) + [t]).Goto(t, Blocked(op))
  {
    var s1 := Step(s, Enter(t, op));
    AfterTwo(s, Enter(t, op), Continue(t));
    assert s1.pcs[t := Blocked(op)] == s.pcs[t := Blocked(op)];
  }

  /** `try_wait` or `try_signal` with a permit does what `wait` or `signal` does; without one it changes nothing. */
  lemma TryCompletes(s: State, t: nat, op: Op)
    requires Inv(s) && t < |s.pcs| && s.pcs[t] == Outside
    ensures After(s, [TryOnce(t, op), Continue(t), Continue(t)]) ==
            if s.Level(op) > 0 then After(s, [Enter(t, op), Continue(t), Continue(t), Continue(t)]) else s
  {
    hide After;
    AfterThree(s, TryOnce(t, op), Continue(t));
    AfterFour(s, Enter(t, op), Continue(t));
    if s.Level(op) > 0 {
      Counts(s, t, op);
    }
  }

  lemma AfterThree(s: State, m: Move, m': Move)
    ensures After(s, [m, m', m']) == Step(Step(Step(s, m), m'), m')
  {
    hide Step;
    AfterTwo(s, m, m');
    assert [m, m', m'][..2] == [m, m'];
  }

  lemma AfterTwo(s: State, m: Move, m': Move)
    ensures After(s, [m, m']) == Step(Step(s, m), m')
  {
    assert [m, m'][..1] == [m] && [m][..0] == [];
    assert After(s, [m]) == Step(s, m);
  }

  lemma AfterFour(s: State, m: Move, m': Move)
    ensures After(s, [m, m', m', m']) == Step(Step(Step(Step(s, m), m'), m'), m')
  {
    hide Step;
    AfterTwo(s, m, m');
    assert [m, m', m', m'][..3] == [m, m', m'] && [m, m', m'][..2] == [m, m'];
    assert After(s, [m, m', m']) == Step(After(s, [m, m']), m');
  }

  class Semaphore {
    const max: nat
    var count: int
    var waiting: seq<nat>
    var releasing: seq<nat>
    var pcs: seq<Pc>
    var waits: nat
    var signals: nat

    function View(): State
      reads this
    {
      State(count, max, waiting, releasing, pcs, waits, signals)
    }

    /** `Semaphore::new`, and the tasks that will use it. */
    constructor (init: nat, max: nat, tasks: nat)
      requires init <= max
      ensures Inv(View()) && View().Initial() == init && |pcs| == tasks && this.max == max
    {
      this.max := max;
      count, waits, signals := init, 0, 0;
      waiting, releasing := [], [];
      pcs := seq(tasks, _ => Outside);
    }

    /** The counter update and, if it fails, enqueueing and blocking. */
    method Attempt(t: nat)
      requires Inv(View()) && t < |pcs| && pcs[t].Trying?
      modifies this
      ensures View() == AfterAttempt(old(View()), t) && Inv(View())
    {
      AttemptKeeps(View(), t);
      var op := pcs[t].op;
      if View().Level(op) > 0 {
        Use(op);
        pcs := pcs[t := Popping(op)];
      } else {
        if op.Wait? {
          waiting := waiting + [t];
        } else {
          releasing := releasing + [t];
        }
        pcs := pcs[t := Blocked(op)];
      }
    }

    method Use(op: Op)
      modifies this`count, this`waits, this`signals
      ensures View() == old(View()).Use(op)
    {
      if op.Wait? {
        count, waits := count - 1, waits + 1;
      } else {
        count, signals := count + 1, signals + 1;
      }
    }

    method AttemptOnce(t: nat, op: Op) returns (ok: bool)
      requires Inv(View()) && t < |pcs| && pcs[t] == Outside
      modifies this
      ensures ok == (old(View()).Level(op) > 0)
      ensures View() == AfterAttemptOnce(old(View()), t, op) && Inv(View())
    {
      ok := View().Level(op) > 0;
      if ok {
        SucceedKeeps(View(), t, op);
        Use(op);
        pcs := pcs[t := Popping(op)];
      }
    }

    method Pop(t: nat)
      requires Inv(View()) && t < |pcs| && pcs[t].Popping?
      modifies this
      ensures View() == AfterPop(old(View()), t) && Inv(View())
    {
      PopKeeps(View(), t);
      var op := pcs[t].op;
      var q := View().Queue(op.Opposite());
      if q == [] {
        pcs := pcs[t := Outside];
      } else {
        if op.Wait? {
          releasing := q[1..];
        } else {
          waiting := q[1..];
        }
        pcs := pcs[t := Waking(op, q[0])];
      }
    }

    /** `wake`, which makes the popped task retry. */
    method Wake(t: nat)
      requires Inv(View()) && t < |pcs| && pcs[t].Waking?
      modifies this
      ensures old(View()).pcs[t].task < |old(View()).pcs| && View() == AfterWake(old(View()), t) && Inv(View())
    {
      WakeKeeps(View(), t);
      pcs := pcs[pcs[t].task := Trying(pcs[t].op.Opposite(), true)][t := Outside];
    }

    /** One move of one task. */
    method Move(m: Move)
      requires Inv(View())
      modifies this
      ensures View() == Step(old(View()), m) && Inv(View())
    {
      hide Inv;
      StepKeeps(View(), m);
      var t := m.task;
      if t < |pcs| {
        match (m, pcs[t]) {
          case (Enter(_, op), Outside) => pcs := pcs[t := Trying(op, false)];
          case (TryOnce(_, op), Outside) =>
            var ok := AttemptOnce(t, op);
          case (Continue(_), Trying(_, _)) => Attempt(t);
          case (Continue(_), Popping(_)) => Pop(t);
          case (Continue(_), Waking(_, _)) => Wake(t);
          case _ =>
        }
      }
    }

    /** Any interleaving of any number of tasks. */
    method Run(moves: seq<Move>)
      requires Inv(View())
      modifies this
      ensures View() == After(old(View()), moves)
      ensures Inv(View()) && |pcs| == |old(pcs)| && View().Initial() == old(View()).Initial()
    {
      hide Inv, Step;
      ghost var s := View();
      for n := 0 to |moves|
        invariant Inv(View()) && View() == After(s, moves[..n])
      {
        assert moves[..n + 1][..n] == moves[..n];
        Move(moves[n]);
      }
      assert moves[..|moves|] == moves;
      RunsKeep(s, moves, |moves|);
    }
  }
}
