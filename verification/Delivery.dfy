/** The receive ring over the counting semaphores themselves: the bottom-half task and the network task, section by
    section. A signal is one section here, because both sides send it with their buffer locked and hence with
    interrupts off. */
module Delivery {
  import Semaphores
  import RxRing

  /** The tasks. */
  const PRODUCER := 0
  const CONSUMER := 1

  type Sem = Semaphores.State

  /** The ring counts its tokens; the semaphores are what the code uses. */
  datatype Net = Net(ring: RxRing.Ring, empty: Sem, full: Sem)

  // ---- the semaphores ----------------------------------------------------

  /** `signal`, as a whole: the attempt, taking a waiting task off the queue, waking it. */
  function Signal(s: Sem, t: nat): Sem {
    var entered := Semaphores.Step(s, Semaphores.Enter(t, Semaphores.Signal));
    var counted := Semaphores.Step(entered, Semaphores.Continue(t));
    var popped := Semaphores.Step(counted, Semaphores.Continue(t));
    Semaphores.Step(popped, Semaphores.Continue(t))
  }

  lemma SignalKeeps(s: Sem, t: nat)
    requires Semaphores.Inv(s)
    ensures Semaphores.Inv(Signal(s, t))
  {
    hide Semaphores.Inv, Semaphores.Step;
    var entered := Semaphores.Step(s, Semaphores.Enter(t, Semaphores.Signal));
    var counted := Semaphores.Step(entered, Semaphores.Continue(t));
    var popped := Semaphores.Step(counted, Semaphores.Continue(t));
    Semaphores.StepKeeps(s, Semaphores.Enter(t, Semaphores.Signal));
    Semaphores.StepKeeps(entered, Semaphores.Continue(t));
    Semaphores.StepKeeps(counted, Semaphores.Continue(t));
    Semaphores.StepKeeps(popped, Semaphores.Continue(t));
  }

  /** With room, and nobody or one task waiting: that task will try again, and the caller is done. */
  lemma SignalWakes(s: Sem, t: nat)
    requires |s.pcs| == 2 && t < 2 && s.pcs[t] == Semaphores.Outside && s.count < s.max
    requires s.waiting == [] || (s.waiting == [1 - t] && s.pcs[1 - t] == Semaphores.Blocked(Semaphores.Wait))
    ensures
      var woken := if s.waiting == [] then s.pcs else s.pcs[1 - t := Semaphores.Trying(Semaphores.Wait, true)];
      Signal(s, t) == s.(count := s.count + 1, signals := s.signals + 1, waiting := [], pcs := woken)
  {
    var entered := Semaphores.Step(s, Semaphores.Enter(t, Semaphores.Signal));
    var counted := Semaphores.Step(entered, Semaphores.Continue(t));
    var popped := Semaphores.Step(counted, Semaphores.Continue(t));
    assert counted.pcs == s.pcs[t := Semaphores.Popping(Semaphores.Signal)];
    if s.waiting == [] {
      assert popped.pcs == s.pcs;
    } else {
      assert popped.pcs == s.pcs[t := Semaphores.Waking(Semaphores.Signal, 1 - t)];
      assert Semaphores.Step(popped, Semaphores.Continue(t)).pcs ==
             s.pcs[1 - t := Semaphores.Trying(Semaphores.Wait, true)];
    }
  }

  // ---- the invariant -----------------------------------------------------

  /** `recv_empty` is waited for by `try_wait` only, and only the producer may be inside it. */
  ghost predicate EmptyOk(n: Net) {
    && Semaphores.Inv(n.empty) && |n.empty.pcs| == 2 && n.empty.max == RxRing.SLOTS
    && n.empty.count == n.ring.recvEmpty && n.empty.waiting == [] && n.empty.releasing == []
    && n.empty.pcs[CONSUMER] == Semaphores.Outside
    && (n.empty.pcs[PRODUCER] == Semaphores.Outside
        || (n.empty.pcs[PRODUCER] == Semaphores.Popping(Semaphores.Wait) && n.ring.producer.HasToken?))
  }

  /** In `recv_full` the consumer may be blocked, about to try again, or done with its wait. */
  ghost predicate FullOk(n: Net) {
    && Semaphores.Inv(n.full) && |n.full.pcs| == 2 && n.full.max == RxRing.SLOTS
    && n.full.count == n.ring.recvFull && n.full.releasing == []
    && n.full.waiting == (if n.full.pcs[CONSUMER].Blocked? then [CONSUMER] else [])
    && n.full.pcs[PRODUCER] == Semaphores.Outside
    && (match n.full.pcs[CONSUMER]
        case Outside => true
        case Trying(op, _) => op.Wait? && n.ring.consumer.Waiting?
        case Blocked(op) => op.Wait? && n.ring.consumer.Waiting?
        case Popping(op) => op.Wait? && n.ring.consumer.HasFull?
        case Waking(_, _) => false)
  }

  ghost predicate Inv(n: Net) { RxRing.Inv(n.ring) && EmptyOk(n) && FullOk(n) }

  function FreshSemaphore(init: nat, max: nat): Sem {
    Semaphores.State(init, max, [], [], [Semaphores.Outside, Semaphores.Outside], 0, 0)
  }

  /** `Interface::new`. */
  lemma Starts(bufs: seq<RxRing.RxBuf>)
    requires |bufs| == RxRing.SLOTS && forall k: nat | k < RxRing.SLOTS :: bufs[k].Valid()
    ensures
      var ring := RxRing.Ring(bufs, 4, 0, 0, 0, RxRing.Ready, RxRing.Waiting, [], [], 0, 0);
      Inv(Net(ring, FreshSemaphore(4, 4), FreshSemaphore(0, 4)))
  {
  }

  /** The consumer is never left blocked while there is a frame for it. */
  lemma BlockedMeansEmpty(n: Net)
    requires Inv(n) && n.full.pcs[CONSUMER].Blocked?
    ensures n.ring.recvFull == 0
    ensures n.ring.producer.Ready? ==> n.ring.handled == n.ring.accepted
  {
    forall t: nat | t < |n.full.pcs| ensures !Semaphores.Helps(Semaphores.Wait)(n.full.pcs[t]) {
    }
    Semaphores.QuietMeansNone(n.full, Semaphores.Wait);
    if n.ring.producer.Ready? {
      RxRing.NothingLost(n.ring);
    }
  }

  // ---- the sections ------------------------------------------------------

  /** `recv_frame`, up to the token. */
  function Receive(n: Net, f: RxRing.Frame): Net {
    if |n.empty.pcs| == 2 && n.ring.producer.Ready? && n.empty.pcs[PRODUCER] == Semaphores.Outside then
      n.(ring := RxRing.AfterReceive(n.ring, f),
         empty := Semaphores.Step(n.empty, Semaphores.TryOnce(PRODUCER, Semaphores.Wait)))
    else n
  }

  /** The rest of `recv_frame`. */
  ghost function Produce(n: Net): Net
    requires Inv(n)
  {
    if n.empty.pcs[PRODUCER].Popping? then
      n.(empty := Semaphores.Step(n.empty, Semaphores.Continue(PRODUCER)))
    else
      n.(ring := RxRing.AfterProduce(n.ring),
         full := if n.ring.producer.Written? then Signal(n.full, PRODUCER) else n.full)
  }

  /** `handle_frame`. */
  ghost function Consume(n: Net): Net
    requires Inv(n)
  {
    match n.full.pcs[CONSUMER]
    case Blocked(_) => n
    case Popping(_) => n.(full := Semaphores.Step(n.full, Semaphores.Continue(CONSUMER)))
    case Trying(_, _) =>
      n.(ring := RxRing.AfterConsume(n.ring), full := Semaphores.Step(n.full, Semaphores.Continue(CONSUMER)))
    case _ =>
      if n.ring.consumer.Waiting? then
        n.(full := Semaphores.Step(n.full, Semaphores.Enter(CONSUMER, Semaphores.Wait)))
      else
        n.(ring := RxRing.AfterConsume(n.ring),
           empty := if n.ring.consumer.Handling? then Signal(n.empty, CONSUMER) else n.empty)
  }

  lemma ReceiveKeeps(n: Net, f: RxRing.Frame)
    requires Inv(n)
    ensures Inv(Receive(n, f))
  {
    hide Semaphores.Inv, RxRing.Inv;
    RxRing.ReceiveKeeps(n.ring, f);
    Semaphores.StepKeeps(n.empty, Semaphores.TryOnce(PRODUCER, Semaphores.Wait));
  }

  lemma ProduceKeeps(n: Net)
    requires Inv(n)
    ensures Inv(Produce(n))
  {
    hide Semaphores.Inv, RxRing.Inv, Signal;
    RxRing.ProduceKeeps(n.ring);
    RxRing.SignalsPass(n.ring);
    Semaphores.StepKeeps(n.empty, Semaphores.Continue(PRODUCER));
    if n.ring.producer.Written? {
      SignalKeeps(n.full, PRODUCER);
      SignalWakes(n.full, PRODUCER);
    }
  }

  lemma ConsumeKeeps(n: Net)
    requires Inv(n)
    ensures Inv(Consume(n))
  {
    hide Semaphores.Inv, RxRing.Inv, Signal;
    RxRing.ConsumeKeeps(n.ring);
    RxRing.SignalsPass(n.ring);
    Semaphores.StepKeeps(n.full, Semaphores.Continue(CONSUMER));
    Semaphores.StepKeeps(n.full, Semaphores.Enter(CONSUMER, Semaphores.Wait));
    if n.ring.consumer.Handling? {
      SignalKeeps(n.empty, CONSUMER);
      SignalWakes(n.empty, CONSUMER);
    }
  }

  // ---- runs --------------------------------------------------------------

  ghost function Step(n: Net, e: RxRing.Event): (n': Net)
    requires Inv(n)
    ensures Inv(n')
  {
    match e
    case Arrive(f) =>
      ReceiveKeeps(n, f);
      Receive(n, f)
    case ProducerRuns =>
      ProduceKeeps(n);
      Produce(n)
    case ConsumerRuns =>
      ConsumeKeeps(n);
      Consume(n)
  }

  ghost function After(n: Net, events: seq<RxRing.Event>): (n': Net)
    requires Inv(n)
    ensures Inv(n')
  {
    if events == [] then n else Step(After(n, events[..|events| - 1]), events[|events| - 1])
  }

  /** On the ring, every section is one of the ring's or none: the semaphores take the tokens that the ring counts. */
  lemma StepRefines(n: Net, e: RxRing.Event)
    requires Inv(n)
    ensures Step(n, e).ring == n.ring || Step(n, e).ring == RxRing.Step(n.ring, e)
  {
  }

  /** Hence every run of the two tasks is a run of the ring. */
  lemma {:induction false} RunsRefine(n: Net, events: seq<RxRing.Event>) returns (moves: seq<RxRing.Event>)
    requires Inv(n)
    ensures |moves| <= |events| && After(n, events).ring == RxRing.After(n.ring, moves)
  {
    hide Inv, Step, RxRing.Inv, RxRing.Step;
    moves := [];
    RingOk(n);
    if events != [] {
      var k := |events| - 1;
      moves := RunsRefine(n, events[..k]);
      StepRefines(After(n, events[..k]), events[k]);
      if After(n, events).ring != RxRing.After(n.ring, moves) {
        assert (moves + [events[k]])[..|moves|] == moves;
        moves := moves + [events[k]];
      }
    }
  }

  lemma RingOk(n: Net)
    requires Inv(n)
    ensures RxRing.Inv(n.ring)
  {
  }

  /** At every point of every run the frames handled are a prefix of those accepted, and the consumer is blocked only
      if there is no frame for it. */
  lemma RunsDeliver(n: Net, events: seq<RxRing.Event>)
    requires Inv(n)
    ensures
      var n' := After(n, events);
      && n.ring.accepted <= n'.ring.accepted && n.ring.handled <= n'.ring.handled <= n'.ring.accepted
      && |n'.full.pcs| == 2 && (n'.full.pcs[CONSUMER].Blocked? ==> n'.ring.recvFull == 0)
  {
    hide After, RxRing.Inv, Step, Semaphores.Inv;
    var moves := RunsRefine(n, events);
    RxRing.RunsDeliver(n.ring, moves);
    if After(n, events).full.pcs[CONSUMER].Blocked? {
      BlockedMeansEmpty(After(n, events));
    }
  }

  // ---- every accepted frame is handled -----------------------------------

  /** The sections that the consumer runs before it blocks, if no more frames come. */
  function Work(n: Net): nat
    requires |n.full.pcs| == 2 && n.ring.recvFull >= 0
  {
    6 * n.ring.recvFull +
    match n.full.pcs[CONSUMER]
    case Blocked(_) => 0
    case Trying(_, _) => 1
    case Popping(_) => 6
    case _ =>
      match n.ring.consumer
      case Waiting => 2
      case Handling(_) => 3
      case HasNext(_) => 4
      case HasFull => 5
  }

  lemma ConsumeWorks(n: Net)
    requires Inv(n)
    ensures Work(Consume(n)) == if n.full.pcs[CONSUMER].Blocked? then Work(n) else Work(n) - 1
    ensures n.full.pcs[CONSUMER].Blocked? <==> Work(n) == 0
    ensures Consume(n).ring.producer == n.ring.producer && Consume(n).ring.accepted == n.ring.accepted
  {
    hide Semaphores.Inv, RxRing.Inv, Signal;
    RxRing.SignalsPass(n.ring);
    RingCounts(n.ring);
    if n.full.pcs[CONSUMER].Blocked? {
      BlockedMeansEmpty(n);
    }
    if n.ring.consumer.Handling? {
      SignalWakes(n.empty, CONSUMER);
    }
  }

  lemma RingCounts(r: RxRing.Ring)
    requires RxRing.Inv(r)
    ensures r.recvFull >= 0
  {
  }

  /** Left to itself, the consumer handles every accepted frame within `Work` sections, and then blocks. */
  lemma {:induction false} Drains(n: Net, k: nat)
    requires Inv(n) && n.ring.producer.Ready? && k >= Work(n)
    ensures
      var n' := After(n, seq(k, _ => RxRing.ConsumerRuns));
      && n'.ring.handled == n'.ring.accepted == n.ring.accepted
      && |n'.full.pcs| == 2 && n'.full.pcs[CONSUMER].Blocked?
  {
    DrainsTo(n, k);
    var n' := After(n, seq(k, _ => RxRing.ConsumerRuns));
    ConsumeWorks(n');
    BlockedMeansEmpty(n');
  }

  lemma {:induction false} DrainsTo(n: Net, k: nat)
    requires Inv(n)
    ensures
      var n' := After(n, seq(k, _ => RxRing.ConsumerRuns));
      && n'.ring.producer == n.ring.producer && n'.ring.accepted == n.ring.accepted
      && |n'.full.pcs| == 2 && n'.ring.recvFull >= 0
      && Work(n') == if k <= Work(n) then Work(n) - k else 0
  {
    hide Semaphores.Inv, RxRing.Inv, Signal, Consume, Work;
    RingCounts(n.ring);
    if k > 0 {
      DrainsTo(n, k - 1);
      var events := seq(k, _ => RxRing.ConsumerRuns);
      assert events[..k - 1] == seq(k - 1, _ => RxRing.ConsumerRuns);
      ConsumeWorks(After(n, events[..k - 1]));
      RingCounts(After(n, events).ring);
    }
  }

  /** The sections that the producer runs before it is ready again. */
  function Left(n: Net): nat
    requires |n.empty.pcs| == 2
  {
    RxRing.Left(n.ring.producer) + if n.empty.pcs[PRODUCER].Popping? then 1 else 0
  }

  lemma ProduceWorks(n: Net)
    requires Inv(n)
    ensures Left(Produce(n)) == if n.ring.producer.Ready? then Left(n) else Left(n) - 1
    ensures Left(n) == 0 <==> n.ring.producer.Ready?
    ensures Produce(n).ring.accepted == n.ring.accepted
  {
    hide Semaphores.Inv, RxRing.Inv, Signal;
  }

  lemma {:induction false} ProducerRunsTo(n: Net, k: nat)
    requires Inv(n)
    ensures
      var n' := After(n, seq(k, _ => RxRing.ProducerRuns));
      && n'.ring.accepted == n.ring.accepted
      && |n'.empty.pcs| == 2 && Left(n') == if k <= Left(n) then Left(n) - k else 0
  {
    hide Semaphores.Inv, RxRing.Inv, Signal, Produce, Left;
    if k > 0 {
      ProducerRunsTo(n, k - 1);
      var events := seq(k, _ => RxRing.ProducerRuns);
      assert events[..k - 1] == seq(k - 1, _ => RxRing.ProducerRuns);
      ProduceWorks(After(n, events[..k - 1]));
    }
  }

  /** The next frame is accepted, unless four are waiting or being handled. */
  lemma Accepts(n: Net, f: RxRing.Frame)
    requires Inv(n) && Left(n) == 0
    ensures
      var accepted := n.ring.accepted;
      Receive(n, f).ring.accepted == if |accepted| - n.ring.freed < 4 then accepted + [f] else accepted
  {
    hide Semaphores.Inv, RxRing.Inv;
    RxRing.AcceptsUpToFour(n.ring, f);
  }

  /** From every state that can be reached, every accepted frame is handled: once the producer has run `Left` sections,
      and then the consumer `Work`, nothing is left to do. */
  lemma EveryFrameIsHandled(n: Net, j: nat, k: nat)
    requires Inv(n) && j >= Left(n)
    ensures
      var m := After(n, seq(j, _ => RxRing.ProducerRuns));
      && m.ring.producer.Ready? && |m.full.pcs| == 2 && m.ring.recvFull >= 0
      && (k >= Work(m) ==> After(m, seq(k, _ => RxRing.ConsumerRuns)).ring.handled == n.ring.accepted)
  {
    hide Semaphores.Inv, RxRing.Inv, After, Left, Work;
    var m := After(n, seq(j, _ => RxRing.ProducerRuns));
    ProducerRunsTo(n, j);
    ProduceWorks(m);
    RingCounts(m.ring);
    if k >= Work(m) {
      Drains(m, k);
    }
  }
}
