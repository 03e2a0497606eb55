/** The receive ring of a network interface: four buffers, two counting semaphores, one producer (the bottom-half task
    of the driver) and one consumer (the network task), interleaved section by section. */
module RxRing {
  import opened Basics

  const SLOTS := 4
  const CAPACITY := 1526

  type Frame = f: seq<Byte> | |f| <= CAPACITY

  datatype RxBuf = RxBuf(bytes: seq<Byte>, len: nat)
  {
    predicate Valid() { |bytes| == CAPACITY && len <= CAPACITY }

    /** `buf.bytes[0..n].copy_from_slice(bytes); buf.len = n`. */
    function Fill(f: Frame): RxBuf
      requires Valid()
    {
      RxBuf(f + bytes[|f|..], |f|)
    }

    /** `buf.bytes[0..buf.len]`. */
    function Contents(): Frame
      requires Valid()
    {
      bytes[..len]
    }
  }

  /** `recv_frame`: has a token; has its slot; has written the slot and still holds its lock. */
  datatype Producer = Ready | HasToken(frame: Frame) | HasSlot(frame: Frame, next: nat) | Written(next: nat)

  /** `handle_frame`. */
  datatype Consumer = Waiting | HasFull | HasNext(next: nat) | Handling(next: nat)

  /** The ring and its history: every frame that got a token, every frame handled, and how many `recv_empty.signal()`
      and `recv_full.wait()` there were. */
  datatype Ring = Ring(bufs: seq<RxBuf>, recvEmpty: int, recvFull: int, recvHead: nat, recvTail: nat,
                       producer: Producer, consumer: Consumer,
                       accepted: seq<Frame>, handled: seq<Frame>, freed: nat, taken: nat)
  {
    /** The number of `recv_full.signal()`. */
    function Signalled(): int { |accepted| - if producer.Ready? then 0 else 1 }
  }

  /** The frame is in the slot with the given number, counting on around the ring. */
  ghost predicate Stored(bufs: seq<RxBuf>, i: nat, f: Frame) {
    |bufs| == SLOTS && bufs[i % SLOTS].Valid() && bufs[i % SLOTS].Contents() == f
  }

  lemma SlotsApart(i: nat, j: nat)
    requires i < j < i + SLOTS
    ensures i % SLOTS != j % SLOTS
  {
  }

  lemma NextSlot(n: nat)
    ensures (n % SLOTS + 1) % SLOTS == (n + 1) % SLOTS
  {
  }

  // ---- the invariant -----------------------------------------------------

  ghost predicate ProducerOk(r: Ring) {
    && (r.producer.HasToken? ==> r.recvHead == (|r.accepted| - 1) % SLOTS)
    && (!r.producer.HasToken? ==> r.recvHead == |r.accepted| % SLOTS)
    && (!r.producer.Ready? ==> |r.accepted| > 0)
    && (r.producer.HasSlot? || r.producer.Written? ==> r.producer.next == (|r.accepted| - 1) % SLOTS)
    && (r.producer.HasToken? || r.producer.HasSlot? ==> r.producer.frame == r.accepted[|r.accepted| - 1])
  }

  ghost predicate ConsumerOk(r: Ring) {
    && r.taken == r.freed + (if r.consumer.Waiting? then 0 else 1)
    && |r.handled| == r.taken - (if r.consumer.HasFull? || r.consumer.HasNext? then 1 else 0)
    && (r.consumer.HasFull? ==> r.recvTail == (r.taken - 1) % SLOTS)
    && (!r.consumer.HasFull? ==> r.recvTail == r.taken % SLOTS)
    && (r.consumer.HasNext? || r.consumer.Handling? ==> r.consumer.next == (r.taken - 1) % SLOTS)
  }

  ghost predicate Inv(r: Ring) {
    && ProducerOk(r) && ConsumerOk(r)
    && r.recvFull == r.Signalled() - r.taken && r.recvFull >= 0
    && r.recvEmpty == SLOTS - |r.accepted| + r.freed && r.recvEmpty >= 0
    && |r.bufs| == SLOTS && (forall k: nat | k < SLOTS :: r.bufs[k].Valid())
    && (forall i: nat | r.freed <= i < |r.accepted| && (i < r.Signalled() || r.producer.Written?) ::
          Stored(r.bufs, i, r.accepted[i]))
    && r.handled <= r.accepted
  }

  /** Tokens are conserved: each is in a semaphore or with an operation in progress. */
  lemma Conserved(r: Ring)
    requires Inv(r)
    ensures r.recvEmpty + r.recvFull + (if r.producer.Ready? then 0 else 1) + (if r.consumer.Waiting? then 0 else 1)
            == SLOTS
  {
  }

  /** When both sides rest, every accepted frame has been handled. */
  lemma NothingLost(r: Ring)
    requires Inv(r) && r.producer.Ready? && r.consumer.Waiting? && r.recvFull == 0
    ensures r.handled == r.accepted
  {
  }

  /** The two sides never want the same buffer lock. */
  lemma LocksApart(r: Ring)
    requires Inv(r) && (r.producer.HasSlot? || r.producer.Written?) && (r.consumer.HasNext? || r.consumer.Handling?)
    ensures r.producer.next != r.consumer.next
  {
  }

  /** A side that is about to lock its buffer finds it free. */
  lemma BufferIsFree(r: Ring)
    requires Inv(r)
    ensures r.producer.HasSlot? && r.consumer.Handling? ==> r.producer.next != r.consumer.next
    ensures r.consumer.HasNext? && r.producer.Written? ==> r.producer.next != r.consumer.next
  {
    if (r.producer.HasSlot? || r.producer.Written?) && (r.consumer.HasNext? || r.consumer.Handling?) {
      LocksApart(r);
    }
  }

  /** The signal that a side sends while it holds its buffer does not block: no semaphore is full. */
  lemma SignalsPass(r: Ring)
    requires Inv(r)
    ensures r.producer.Written? ==> r.recvFull < SLOTS
    ensures r.consumer.Handling? ==> r.recvEmpty < SLOTS
  {
  }

  // ---- the sections ------------------------------------------------------

  /** `recv_frame`, up to the token: the frame is accepted if there is one. */
  function AfterReceive(r: Ring, f: Frame): Ring {
    if r.producer.Ready? && r.recvEmpty > 0 then
      r.(recvEmpty := r.recvEmpty - 1, producer := HasToken(f), accepted := r.accepted + [f])
    else r
  }

  /** The rest of `recv_frame`, section by section. */
  function AfterProduce(r: Ring): Ring
    requires Inv(r)
  {
    match r.producer
    case HasToken(f) => r.(producer := HasSlot(f, r.recvHead), recvHead := (r.recvHead + 1) % SLOTS)
    case HasSlot(f, next) => r.(producer := Written(next), bufs := r.bufs[next := r.bufs[next].Fill(f)])
    case Written(_) => r.(producer := Ready, recvFull := r.recvFull + 1)
    case Ready => r
  }

  /** `handle_frame`, section by section. It blocks while there is nothing to handle. */
  function AfterConsume(r: Ring): Ring
    requires Inv(r)
  {
    match r.consumer
    case Waiting =>
      if r.recvFull > 0 then r.(consumer := HasFull, recvFull := r.recvFull - 1, taken := r.taken + 1) else r
    case HasFull => r.(consumer := HasNext(r.recvTail), recvTail := (r.recvTail + 1) % SLOTS)
    case HasNext(next) => r.(consumer := Handling(next), handled := r.handled + [r.bufs[next].Contents()])
    case Handling(_) => r.(consumer := Waiting, recvEmpty := r.recvEmpty + 1, freed := r.freed + 1)
  }

  lemma ReceiveKeeps(r: Ring, f: Frame)
    requires Inv(r)
    ensures Inv(AfterReceive(r, f))
  {
  }

  lemma WriteKeeps(r: Ring)
    requires Inv(r) && r.producer.HasSlot?
    ensures Inv(AfterProduce(r))
  {
    var r', next := AfterProduce(r), r.producer.next;
    // The slot holds no frame that is still to be handled.
    forall i: nat | r.freed <= i < r.Signalled() ensures i % SLOTS != next {
      SlotsApart(i, |r.accepted| - 1);
    }
    assert r'.bufs[next].Contents() == r.producer.frame;
  }

  lemma ProduceKeeps(r: Ring)
    requires Inv(r)
    ensures Inv(AfterProduce(r))
  {
    match r.producer
    case HasToken(_) => NextSlot(|r.accepted| - 1);
    case HasSlot(_, _) => WriteKeeps(r);
    case _ =>
  }

  /** What is read is the oldest accepted frame that has not been handled. */
  lemma ReadKeeps(r: Ring)
    requires Inv(r) && r.consumer.HasNext?
    ensures |r.handled| < |r.accepted| && AfterConsume(r).handled == r.handled + [r.accepted[|r.handled|]]
    ensures Inv(AfterConsume(r))
  {
    assert Stored(r.bufs, r.taken - 1, r.accepted[r.taken - 1]);
  }

  lemma ConsumeKeeps(r: Ring)
    requires Inv(r)
    ensures Inv(AfterConsume(r))
  {
    match r.consumer
    case HasFull => NextSlot(r.taken - 1);
    case HasNext(_) => ReadKeeps(r);
    case _ =>
  }

  // ---- runs --------------------------------------------------------------

  datatype Event = Arrive(frame: Frame) | ProducerRuns | ConsumerRuns

  function Step(r: Ring, e: Event): Ring
    requires Inv(r)
  {
    match e
    case Arrive(f) => AfterReceive(r, f)
    case ProducerRuns => AfterProduce(r)
    case ConsumerRuns => AfterConsume(r)
  }

  lemma StepKeeps(r: Ring, e: Event)
    requires Inv(r)
    ensures Inv(Step(r, e))
  {
    hide Inv, AfterReceive, AfterProduce, AfterConsume;
    match e
    case Arrive(f) => ReceiveKeeps(r, f);
    case ProducerRuns => ProduceKeeps(r);
    case ConsumerRuns => ConsumeKeeps(r);
  }

  /** The ring after a run. */
  ghost function After(r: Ring, events: seq<Event>): (r': Ring)
    requires Inv(r)
    ensures Inv(r')
  {
    if events == [] then r
    else
      var m := After(r, events[..|events| - 1]);
      StepKeeps(m, events[|events| - 1]);
      Step(m, events[|events| - 1])
  }

  /** The arrivals of a run that find the producer ready and a token. */
  ghost function Arrivals(r: Ring, events: seq<Event>): seq<Frame>
    requires Inv(r)
  {
    if events == [] then []
    else
      var n := |events| - 1;
      var m, e := After(r, events[..n]), events[n];
      Arrivals(r, events[..n]) + if e.Arrive? && m.producer.Ready? && m.recvEmpty > 0 then [e.frame] else []
  }

  /** At every point of every interleaving: the accepted frames are the arrivals that found a token, in order, and the
      handled frames are a prefix of them, which only grows. */
  lemma {:induction false} RunsDeliver(r: Ring, events: seq<Event>)
    requires Inv(r)
    ensures
      var r' := After(r, events);
      r'.accepted == r.accepted + Arrivals(r, events) && r.handled <= r'.handled <= r'.accepted
  {
    hide Inv, Step;
    if events == [] {
      InOrder(r);
    } else {
      var n := |events| - 1;
      RunsDeliver(r, events[..n]);
      StepDelivers(After(r, events[..n]), events[n]);
    }
  }

  lemma InOrder(r: Ring)
    requires Inv(r)
    ensures r.handled <= r.accepted
  {
  }

  lemma StepDelivers(r: Ring, e: Event)
    requires Inv(r)
    ensures Step(r, e).accepted ==
            r.accepted + if e.Arrive? && r.producer.Ready? && r.recvEmpty > 0 then [e.frame] else []
    ensures r.handled <= Step(r, e).handled <= Step(r, e).accepted
  {
    StepKeeps(r, e);
  }

  /** A frame is accepted unless four are waiting or being handled. */
  lemma AcceptsUpToFour(r: Ring, f: Frame)
    requires Inv(r) && r.producer.Ready?
    ensures AfterReceive(r, f).accepted == if |r.accepted| - r.freed < 4 then r.accepted + [f] else r.accepted
  {
  }

  /** A buffer takes a frame of up to 1526 bytes. */
  lemma FrameFits(b: RxBuf, f: seq<Byte>)
    requires b.Valid() && |f| <= 1526
    ensures b.Fill(f).Valid() && b.Fill(f).Contents() == f && |b.bytes| == 1526
  {
  }

  /** The sections that the producer runs before it is ready again. */
  function Left(p: Producer): nat {
    match p
    case Ready => 0
    case Written(_) => 1
    case HasSlot(_, _) => 2
    case HasToken(_) => 3
  }

  /** Left to itself, the producer is ready after that many sections, and every accepted frame has been signalled. */
  lemma {:induction false} ProducerFinishes(r: Ring, k: nat)
    requires Inv(r) && k >= Left(r.producer)
    ensures
      var r' := After(r, seq(k, _ => ProducerRuns));
      && r'.producer.Ready? && r'.accepted == r.accepted && r'.handled == r.handled && r'.consumer == r.consumer
      && r'.recvFull == |r.accepted| - r.taken && r'.taken == r.taken
      && forall i: nat | r.freed <= i < |r.accepted| :: Stored(r'.bufs, i, r.accepted[i])
  {
    ProducerRunsTo(r, k);
    assert Inv(After(r, seq(k, _ => ProducerRuns)));
  }

  lemma {:induction false} ProducerRunsTo(r: Ring, k: nat)
    requires Inv(r)
    ensures
      var r' := After(r, seq(k, _ => ProducerRuns));
      && r'.accepted == r.accepted && r'.handled == r.handled && r'.consumer == r.consumer
      && r'.taken == r.taken && r'.freed == r.freed
      && Left(r'.producer) == if k <= Left(r.producer) then Left(r.producer) - k else 0
  {
    hide Inv, Stored;
    if k > 0 {
      ProducerRunsTo(r, k - 1);
      var events := seq(k, _ => ProducerRuns);
      assert events[..k - 1] == seq(k - 1, _ => ProducerRuns);
    }
  }

  class Interface {
    var bufs: seq<RxBuf>
    var recvEmpty: int
    var recvFull: int
    var recvHead: nat
    var recvTail: nat
    var producer: Producer
    var consumer: Consumer

    ghost var accepted: seq<Frame>
    ghost var handled: seq<Frame>
    ghost var freed: nat
    ghost var taken: nat

    ghost function State(): Ring
      reads this
    {
      Ring(bufs, recvEmpty, recvFull, recvHead, recvTail, producer, consumer, accepted, handled, freed, taken)
    }

    constructor (bufs: seq<RxBuf>)
      requires |bufs| == SLOTS && forall k: nat | k < SLOTS :: bufs[k].Valid()
      ensures Inv(State()) && accepted == [] && handled == []
    {
      this.bufs := bufs;
      recvEmpty, recvFull, recvHead, recvTail := SLOTS, 0, 0, 0;
      producer, consumer := Ready, Waiting;
      accepted, handled, freed, taken := [], [], 0, 0;
    }

    /** `recv_frame`, up to the token. */
    method Receive(f: Frame) returns (ok: bool)
      requires Inv(State()) && producer.Ready?
      modifies this
      ensures State() == AfterReceive(old(State()), f) && Inv(State()) && ok == (old(recvEmpty) > 0)
    {
      ReceiveKeeps(State(), f);
      ok := recvEmpty > 0;
      if ok {
        recvEmpty := recvEmpty - 1;
        producer := HasToken(f);
        accepted := accepted + [f];
      }
    }

    /** The rest of `recv_frame`: the buffer is free when it is written, and the signal finds room. */
    method Produce()
      requires Inv(State())
      modifies this
      ensures State() == AfterProduce(old(State())) && Inv(State())
      ensures old(producer).HasSlot? && consumer.Handling? ==> consumer.next != old(producer).next
      ensures old(producer).Written? ==> recvFull == old(recvFull) + 1 <= SLOTS
    {
      hide Stored;
      ProduceKeeps(State());
      BufferIsFree(State());
      SignalsPass(State());
      match producer {
        case HasToken(f) =>
          producer := HasSlot(f, recvHead);
          recvHead := (recvHead + 1) % SLOTS;
        case HasSlot(f, next) =>
          bufs := bufs[next := bufs[next].Fill(f)];
          producer := Written(next);
        case Written(_) =>
          recvFull := recvFull + 1;
          producer := Ready;
        case Ready =>
      }
    }

    /** `handle_frame`: the buffer is free when it is read, the oldest frame not yet handled is, and the signal finds
        room. */
    method Consume()
      requires Inv(State())
      modifies this
      ensures State() == AfterConsume(old(State())) && Inv(State())
      ensures old(consumer).HasNext? ==>
                && (producer.Written? ==> producer.next != old(consumer).next)
                && |old(handled)| < |accepted| && handled == old(handled) + [accepted[|old(handled)|]]
      ensures old(consumer).Handling? ==> recvEmpty == old(recvEmpty) + 1 <= SLOTS
    {
      hide Stored;
      ConsumeKeeps(State());
      BufferIsFree(State());
      SignalsPass(State());
      match consumer {
        case Waiting =>
          if recvFull > 0 {
            recvFull := recvFull - 1;
            consumer := HasFull;
            taken := taken + 1;
          }
        case HasFull =>
          consumer := HasNext(recvTail);
          recvTail := (recvTail + 1) % SLOTS;
        case HasNext(next) =>
          ReadKeeps(State());
          handled := handled + [bufs[next].Contents()];
          consumer := Handling(next);
        case Handling(_) =>
          recvEmpty := recvEmpty + 1;
          consumer := Waiting;
          freed := freed + 1;
      }
    }

    /** Any interleaving of receptions and handling. */
    method Run(events: seq<Event>)
      requires Inv(State())
      modifies this
      ensures State() == After(old(State()), events) && Inv(State())
      ensures accepted == old(accepted) + Arrivals(old(State()), events)
      ensures old(handled) <= handled <= accepted
    {
      hide Inv, AfterReceive, AfterProduce, AfterConsume, Arrivals;
      ghost var r := State();
      for n := 0 to |events|
        invariant Inv(State()) && State() == After(r, events[..n])
      {
        assert events[..n + 1][..n] == events[..n];
        match events[n] {
          case Arrive(f) =>
            if producer.Ready? {
              var ok := Receive(f);
            } else {
              NotReady(State(), f);
            }
          case ProducerRuns => Produce();
          case ConsumerRuns => Consume();
        }
      }
      assert events[..|events|] == events;
      RunsDeliver(r, events);
    }
  }

  lemma NotReady(r: Ring, f: Frame)
    requires !r.producer.Ready?
    ensures AfterReceive(r, f) == r
  {
  }
}
