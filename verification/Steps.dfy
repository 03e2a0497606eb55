/** What one access or one fork does to the machine, and what a whole run of user programs is. */
module Steps {
  import opened Basics
  import opened Bits
  import opened Addresses
  import opened PageTables
  import opened FrameTable
  import opened PhysicalPages
  import opened Cloning
  import opened Forking
  import opened ForkEffect
  import opened Contents
  import opened Mapping

  /** The kernel address 0xffff_ffff_c000_0000. */
  const SCRATCH := Virt(511, 511, 0, 0, 0)

  lemma ScratchAddress()
    ensures Word(SCRATCH) == 0xffff_ffff_c000_0000
  {
    hide Cat;
    Powers();
    OnesNumber(16);
    CatIs(511, 9, 0xffff);
    CatIs(511, 9, 0x1ff_ffff);
    CatIs(0, 9, 0x3_ffff_ffff);
    CatIs(0, 9, 0x7ff_ffff_fe00);
    CatIs(0, 12, 0xf_ffff_fffc_0000);
  }

  /** No large page lies over the scratch address. */
  ghost predicate ScratchOk(s: State) {
    forall c: nat | c in s.view.spaces :: NoLargePage(s, c, SCRATCH)
  }

  /** The free pages are pages. */
  ghost predicate PagesAligned(lists: seq<set<nat>>) {
    |lists| > 0 ==> forall p | p in lists[0] :: p % 4096 == 0
  }

  /** The page tables, the frame table, the frames, and the free lists of the page allocator. */
  datatype Machine = Machine(arena: Arena, roles: seq<Role>, pages: Frames, ram: Ram, lists: seq<set<nat>>) {
    ghost function State(): State { FrameTable.State.State(ViewOf(arena, roles), pages) }

    ghost function Contents(): imap<Alias, Bytes> { ContentsOf(State(), ram) }

    ghost predicate Good() { Linked(arena, roles) && Booked(State()) && ScratchOk(State()) && PagesAligned(lists) }

    ghost predicate Has(cr3: nat) { IsSpace(arena, roles, cr3) }

    ghost function At(cr3: nat, virt: Virt): Translation { State().view.at(cr3, virt) }

    ghost function Bytes(cr3: nat, virt: Virt): Bytes
      requires At(cr3, virt).Mapped?
    {
      FrameBytes(ram, At(cr3, virt).page)
    }
  }

  // ---- page faults -------------------------------------------------------

  /** The handler backs the page with the frame taken off the free list, which nobody maps. */
  ghost predicate Fills(a: Machine, cr3: nat, virt: Virt, e: Event, b: Machine)
    requires !PoolEmpty(a.lists)
  {
    && FillStep(a.State(), b.State(), cr3, virt, Taken(a.lists)) && b.ram == a.ram
    && e == if virt.User() then Filled(Alias(cr3, virt), FrameBytes(a.ram, Taken(a.lists))) else KernelFilled(virt)
  }

  /** The handler gives the space a copy of the page in the frame taken off the free list, which nobody maps. */
  ghost predicate Copies(a: Machine, cr3: nat, virt: Virt, e: Event, b: Machine)
    requires !PoolEmpty(a.lists)
  {
    && a.At(cr3, virt).Mapped? && b.At(cr3, virt) == Mapped(Taken(a.lists), true, 3) && Taken(a.lists) !in a.pages
    && CowStep(a.State(), b.State(), cr3, virt, SCRATCH, Taken(a.lists))
    && b.ram == a.ram[Taken(a.lists) := a.Bytes(cr3, virt)]
    && e == Copied(Alias(cr3, virt))
  }

  /** The handler returns without having mapped the page: the address is misaligned. A page taken for a copy stays
      behind at the scratch address. */
  ghost predicate Returns(a: Machine, cr3: nat, virt: Virt, torn: Bytes, e: Event, b: Machine)
    requires !PoolEmpty(a.lists)
  {
    && e == Refaults(virt)
    && if a.At(cr3, virt).Mapped? then
         var left := Mapped(Taken(a.lists), true, 3);
         && b.At(cr3, SCRATCH) == left && left.page !in b.pages
         && KernelStep(a.State(), b.State(), cr3, SCRATCH, left) && b.ram == a.ram[left.page := torn]
       else b.State() == a.State() && b.ram == a.ram
  }

  /** `page_fault_handler`. */
  ghost predicate Faulted(a: Machine, cr3: nat, write: bool, virt: Virt, torn: Bytes, e: Event, b: Machine) {
    var present := a.At(cr3, virt).Mapped?;
    if (if present then !write else virt == ORIGIN) then e == Halted && b == a
    else if present && a.At(cr3, virt).writable then e == Panicked && b == a
    else if PoolEmpty(a.lists) then e == Exhausted && b == a
    else
      && b.lists == AfterWritten(a.lists, PAGE_ORDER)
      && if !virt.Aligned() then Returns(a, cr3, virt, torn, e, b)
         else if present then Copies(a, cr3, virt, e, b)
         else Fills(a, cr3, virt, e, b)
  }

  // ---- runs --------------------------------------------------------------

  /** What the task with number `task` does next. */
  datatype Op =
    | Access(task: nat, write: bool, virt: Virt, byte: Byte, torn: Bytes)
    | Spawn(task: nat)

  predicate Permitted(t: Translation, write: bool) { t.Mapped? && (write ==> t.writable) }

  /** One access of a user program: it succeeds, or it faults. */
  ghost predicate Performed(a: Machine, cr3: nat, write: bool, virt: Virt, byte: Byte, torn: Bytes, e: Event,
                            b: Machine)
  {
    var t, x := a.At(cr3, virt), Alias(cr3, virt.Page());
    if !Permitted(t, write) then Faulted(a, cr3, write, virt, torn, e, b)
    else if write then
      e == Wrote(x, virt.off, byte) && b == a.(ram := a.ram[t.page := a.Bytes(cr3, virt)[virt.off := byte]])
    else
      e == Loaded(x, virt.off, a.Bytes(cr3, virt)[virt.off]) && b == a
  }

  /** One fork of a user program. */
  ghost predicate Spawned(a: Machine, cr3: nat, e: Event, b: Machine)
    requires a.Has(cr3) && |a.roles| == |a.arena.tables|
  {
    if ForkAligned(a.arena, a.arena.TableOf(cr3), |a.arena.tables|) then
      && e.Forked? && e.parent == cr3 && ForkStep(a.State(), b.State(), cr3, e.child)
      && b.ram == a.ram && b.lists == a.lists
    else e == Diverted && b == a
  }

  /** The answer to the next operation, if `live` are the spaces of the tasks. */
  ghost predicate Answered(a: Machine, live: seq<nat>, op: Op, e: Event, b: Machine)
    requires AllLive(a, live)
  {
    if op.task >= |live| then e == Absent && b == a
    else match op
      case Access(_, write, virt, byte, torn) => Performed(a, live[op.task], write, virt, byte, torn, e, b)
      case Spawn(_) => Spawned(a, live[op.task], e, b)
  }

  ghost predicate AllLive(a: Machine, live: seq<nat>) {
    |a.roles| == |a.arena.tables| && forall i: nat | i < |live| :: a.Has(live[i])
  }

  /** The spaces of the tasks after the given answers: that of the first task, and those of the forked ones. */
  function Live(first: nat, trace: seq<Event>): (live: seq<nat>)
    ensures |live| > 0 && live[0] == first
  {
    if trace == [] then [first]
    else
      var live, e := Live(first, trace[..|trace| - 1]), trace[|trace| - 1];
      if e.Forked? then live + [e.child] else live
  }

  /** The machine before operation `i`, or at the end. */
  ghost predicate GoodAt(first: nat, run: seq<Machine>, trace: seq<Event>, i: nat)
    requires i <= |trace| < |run|
  {
    run[i].Good() && AllLive(run[i], Live(first, trace[..i]))
  }

  ghost predicate AnsweredAt(first: nat, ops: seq<Op>, run: seq<Machine>, trace: seq<Event>, i: nat)
    requires i < |trace| < |run| && i < |ops| && GoodAt(first, run, trace, i)
  {
    Answered(run[i], Live(first, trace[..i]), ops[i], trace[i], run[i + 1])
  }

  /** The operations are answered one by one, until they are used up or an answer is final. */
  ghost predicate RunOf(first: nat, ops: seq<Op>, run: seq<Machine>, trace: seq<Event>) {
    && |trace| <= |ops| && |run| == |trace| + 1
    && (forall i: nat | i <= |trace| :: GoodAt(first, run, trace, i))
    && (forall i: nat | i < |trace| :: AnsweredAt(first, ops, run, trace, i))
    && (forall i: nat | i < |trace| - 1 :: !Final(trace[i]))
    && (|trace| < |ops| ==> trace != [] && Final(trace[|trace| - 1]))
  }

  predicate UserOps(ops: seq<Op>) {
    forall i: nat | i < |ops| && ops[i].Access? :: ops[i].virt.User()
  }

  // ---- each answer is one of the reference semantics ---------------------

  lemma FillFacts(a: Machine, cr3: nat, virt: Virt, e: Event, b: Machine)
    requires a.Good() && a.Has(cr3) && virt.Aligned() && !PoolEmpty(a.lists) && Fills(a, cr3, virt, e, b)
    requires !a.At(cr3, virt).Mapped?
    ensures ScratchOk(b.State()) && b.At(cr3, virt).Mapped? && b.At(cr3, virt).writable
    ensures b.Contents() == Eager(a.Contents(), e) && (e.Filled? ==> e.page !in a.Contents())
  {
    hide TableLinked, Booked;
    assert cr3 in a.State().view.spaces;
    var page := b.At(cr3, virt).page;
    if virt.User() {
      FillContents(a.State(), b.State(), cr3, virt, page, a.ram);
    } else {
      KernelContents(a.State(), b.State(), cr3, virt, Mapped(page, true, 3), a.ram, page, FrameBytes(a.ram, page));
    }
  }

  lemma CopyFacts(a: Machine, cr3: nat, virt: Virt, e: Event, b: Machine)
    requires a.Good() && a.Has(cr3) && virt.User() && virt.Aligned()
    requires !PoolEmpty(a.lists) && Copies(a, cr3, virt, e, b)
    ensures ScratchOk(b.State()) && b.At(cr3, virt).writable && b.Contents() == a.Contents()
  {
    hide TableLinked, Booked;
    assert cr3 in a.State().view.spaces;
    CowContents(a.State(), b.State(), cr3, virt, SCRATCH, b.At(cr3, virt).page, a.ram);
  }

  lemma ReturnFacts(a: Machine, cr3: nat, virt: Virt, torn: Bytes, e: Event, b: Machine)
    requires a.Good() && a.Has(cr3) && |b.roles| == |b.arena.tables|
    requires !PoolEmpty(a.lists) && Returns(a, cr3, virt, torn, e, b)
    requires a.At(cr3, virt).Mapped? ==> virt.User()
    ensures ScratchOk(b.State()) && b.At(cr3, virt) == a.At(cr3, virt) && b.Contents() == a.Contents()
  {
    hide TableLinked, Booked, Translate;
    var left := b.At(cr3, SCRATCH);
    assert cr3 in a.State().view.spaces && b.State().view.spaces == a.State().view.spaces;
    if a.At(cr3, virt).Mapped? {
      KernelContents(a.State(), b.State(), cr3, SCRATCH, left, a.ram, left.page, torn);
      PageMapped(a.arena, a.roles, cr3, virt);
      KernelFrame(a.State(), b.State(), cr3, SCRATCH, left, virt.Page());
      assert b.Has(cr3);
      PageMapped(b.arena, b.roles, cr3, virt);
    }
  }

  /** After the handler returns, the access is permitted if and only if the address is page-aligned. */
  lemma FaultFacts(a: Machine, cr3: nat, write: bool, virt: Virt, torn: Bytes, e: Event, b: Machine)
    requires a.Good() && a.Has(cr3) && |b.roles| == |b.arena.tables| && Faulted(a, cr3, write, virt, torn, e, b)
    requires a.At(cr3, virt).Mapped? ==> virt.User()
    ensures ScratchOk(b.State())
    ensures !Permitted(a.At(cr3, virt), write) ==> (Permitted(b.At(cr3, virt), write) <==> !Final(e) && virt.Aligned())
    ensures b.Contents() == Eager(a.Contents(), e) && (e.Filled? ==> e.page !in a.Contents())
    ensures !e.Wrote? && !e.Loaded? && !e.Forked?
  {
    hide TableLinked, Booked, CowStep, KernelStep, FillStep, ContentsOf, ViewOf, AfterWritten, ScratchOk;
    if !Final(e) {
      if !virt.Aligned() {
        ReturnFacts(a, cr3, virt, torn, e, b);
      } else if a.At(cr3, virt).Mapped? {
        CopyFacts(a, cr3, virt, e, b);
      } else {
        FillFacts(a, cr3, virt, e, b);
      }
    }
  }

  lemma StoreFacts(a: Machine, cr3: nat, virt: Virt, byte: Byte)
    requires a.Good() && a.Has(cr3) && virt.User() && Permitted(a.At(cr3, virt), true)
    ensures
      var b := a.(ram := a.ram[a.At(cr3, virt).page := a.Bytes(cr3, virt)[virt.off := byte]]);
      b.Contents() == Eager(a.Contents(), Wrote(Alias(cr3, virt.Page()), virt.off, byte))
    ensures Alias(cr3, virt.Page()) in a.Contents()
  {
    hide TableLinked, Booked;
    PageMapped(a.arena, a.roles, cr3, virt);
    assert UserPage(a.State(), Alias(cr3, virt.Page()));
    WriteContents(a.State(), cr3, virt.Page(), a.ram, virt.off, byte);
  }

  /** A store permitted to one space is seen by that space alone; a load sees what is there. */
  lemma AccessFacts(a: Machine, cr3: nat, write: bool, virt: Virt, byte: Byte, torn: Bytes, e: Event, b: Machine)
    requires a.Good() && a.Has(cr3) && virt.User() && |b.roles| == |b.arena.tables|
    requires Performed(a, cr3, write, virt, byte, torn, e, b)
    ensures b.Contents() == Eager(a.Contents(), e) && !e.Forked? && (e.Filled? ==> e.page !in a.Contents())
    ensures e.Wrote? ==> write && e.page == Alias(cr3, virt.Page()) && e.page in a.Contents()
    ensures e.Loaded? ==> e.page in a.Contents() && a.Contents()[e.page][e.off] == e.byte
  {
    if !Permitted(a.At(cr3, virt), write) {
      hide TableLinked, Booked, Faulted, ContentsOf, ViewOf;
      FaultFacts(a, cr3, write, virt, torn, e, b);
    } else if write {
      StoreFacts(a, cr3, virt, byte);
    } else {
      hide TableLinked, Booked;
      PageMapped(a.arena, a.roles, cr3, virt);
      assert UserPage(a.State(), Alias(cr3, virt.Page()));
    }
  }

  lemma SpawnFacts(a: Machine, cr3: nat, e: Event, b: Machine)
    requires a.Good() && a.Has(cr3) && Spawned(a, cr3, e, b)
    ensures ScratchOk(b.State()) && b.Contents() == Eager(a.Contents(), e)
    ensures e.Forked? ==> b.Has(e.child) && forall x | x in a.Contents() :: x.cr3 != e.child
    ensures e.Forked? || e.Diverted?
  {
    hide TableLinked, Booked, ForkAligned;
    if e.Forked? {
      assert cr3 in a.State().view.spaces;
      ForkContents(a.State(), b.State(), cr3, e.child, a.ram);
      assert e.child in b.State().view.spaces;
    }
  }

  /** `x` is the page that the operation stores to. */
  predicate StoresTo(op: Op, live: seq<nat>, x: Alias) {
    op.Access? && op.write && op.task < |live| && x == Alias(live[op.task], op.virt.Page())
  }

  lemma AnswerFacts(a: Machine, live: seq<nat>, op: Op, e: Event, b: Machine)
    requires a.Good() && AllLive(a, live) && Answered(a, live, op, e, b) && |b.roles| == |b.arena.tables|
    requires op.Access? ==> op.virt.User()
    ensures b.Contents() == Eager(a.Contents(), e)
    ensures e.Loaded? ==> e.page in a.Contents() && a.Contents()[e.page][e.off] == e.byte
    ensures e.Wrote? ==> e.page in a.Contents() && StoresTo(op, live, e.page)
    ensures e.Filled? ==> e.page !in a.Contents()
    ensures e.Forked? ==> forall x | x in a.Contents() :: x.cr3 != e.child
  {
    hide TableLinked, Booked, ContentsOf, ViewOf, Performed, Spawned, ScratchOk;
    if op.task < |live| {
      if op.Access? {
        AccessFacts(a, live[op.task], op.write, op.virt, op.byte, op.torn, e, b);
      } else {
        SpawnFacts(a, live[op.task], e, b);
      }
    }
  }

  // ---- whole runs --------------------------------------------------------

  lemma RunStep(first: nat, ops: seq<Op>, run: seq<Machine>, trace: seq<Event>, i: nat)
    requires RunOf(first, ops, run, trace) && UserOps(ops) && i < |trace|
    ensures run[i + 1].Contents() == Eager(run[i].Contents(), trace[i])
    ensures trace[i].Loaded? ==>
              && trace[i].page in run[i].Contents()
              && run[i].Contents()[trace[i].page][trace[i].off] == trace[i].byte
    ensures trace[i].Wrote? ==> StoresTo(ops[i], Live(first, trace[..i]), trace[i].page)
    ensures trace[i].Filled? ==> trace[i].page !in run[i].Contents()
    ensures trace[i].Forked? ==> forall x | x in run[i].Contents() :: x.cr3 != trace[i].child
  {
    hide Machine.Contents, Machine.Good, Answered, Eager, Live;
    assert GoodAt(first, run, trace, i) && GoodAt(first, run, trace, i + 1) && AnsweredAt(first, ops, run, trace, i);
    AnswerFacts(run[i], Live(first, trace[..i]), ops[i], trace[i], run[i + 1]);
  }

  /** Copy-on-write is invisible: after every operation of every run, the pages hold what they would hold if `fork`
      copied them all at once. */
  lemma {:induction false} RunIsEager(first: nat, ops: seq<Op>, run: seq<Machine>, trace: seq<Event>, i: nat)
    requires RunOf(first, ops, run, trace) && UserOps(ops) && i <= |trace|
    ensures run[i].Contents() == EagerRun(run[0].Contents(), trace[..i])
  {
    hide Machine.Contents, RunOf, Eager;
    if i > 0 {
      RunIsEager(first, ops, run, trace, i - 1);
      RunStep(first, ops, run, trace, i - 1);
      assert trace[..i][..i - 1] == trace[..i - 1];
    }
  }

  /** What a program loads is what it would load then. */
  lemma LoadsAreEager(first: nat, ops: seq<Op>, run: seq<Machine>, trace: seq<Event>, i: nat)
    requires RunOf(first, ops, run, trace) && UserOps(ops) && i < |trace| && trace[i].Loaded?
    ensures
      var c := EagerRun(run[0].Contents(), trace[..i]);
      trace[i].page in c && c[trace[i].page][trace[i].off] == trace[i].byte
  {
    hide Machine.Contents, RunOf, EagerRun;
    RunIsEager(first, ops, run, trace, i);
    RunStep(first, ops, run, trace, i);
  }

  /** Isolation: a page keeps its bytes for as long as no task whose space it is stores to it. */
  lemma {:induction false} Isolation(first: nat, ops: seq<Op>, run: seq<Machine>, trace: seq<Event>, j: nat, k: nat,
                                     x: Alias)
    requires RunOf(first, ops, run, trace) && UserOps(ops) && j <= k <= |trace|
    requires x in run[j].Contents()
    requires forall i: nat | j <= i < k :: !StoresTo(ops[i], Live(first, trace[..i]), x)
    ensures x in run[k].Contents() && run[k].Contents()[x] == run[j].Contents()[x]
    decreases k
  {
    hide Machine.Contents, RunOf, StoresTo;
    if j < k {
      Isolation(first, ops, run, trace, j, k - 1, x);
      RunStep(first, ops, run, trace, k - 1);
    }
  }

  /** The child starts with the bytes that its parent has at the fork. */
  lemma ChildPages(first: nat, ops: seq<Op>, run: seq<Machine>, trace: seq<Event>, i: nat, v: Virt)
    requires RunOf(first, ops, run, trace) && UserOps(ops) && i < |trace| && trace[i].Forked?
    ensures Alias(trace[i].child, v) in run[i + 1].Contents() <==> Alias(trace[i].parent, v) in run[i].Contents()
    ensures Alias(trace[i].parent, v) in run[i].Contents() ==>
              run[i + 1].Contents()[Alias(trace[i].child, v)] == run[i].Contents()[Alias(trace[i].parent, v)]
  {
    hide Machine.Contents, RunOf;
    RunStep(first, ops, run, trace, i);
  }

  // ---- why a run stops ---------------------------------------------------

  /** Why the operation cannot be carried out: `Halted` for an access to the unmapped address 0, `Exhausted` for another
      fault with no page left, `Diverted` for a fork that would divert a pointer. */
  ghost predicate Stops(a: Machine, live: seq<nat>, op: Op, e: Event)
    requires AllLive(a, live)
  {
    op.task < |live| &&
    var cr3 := live[op.task];
    match op
    case Spawn(_) => e == Diverted && !ForkAligned(a.arena, a.arena.TableOf(cr3), |a.arena.tables|)
    case Access(_, write, virt, _, _) =>
      && !Permitted(a.At(cr3, virt), write)
      && if virt == ORIGIN && !a.At(cr3, virt).Mapped? then e == Halted else e == Exhausted && PoolEmpty(a.lists)
  }

  lemma AnswerStops(a: Machine, live: seq<nat>, op: Op, e: Event, b: Machine)
    requires AllLive(a, live) && Answered(a, live, op, e, b)
    ensures !e.Panicked? && (Final(e) <==> Stops(a, live, op, e))
    ensures forall e': Event | Stops(a, live, op, e') :: e == e'
  {
    hide FillStep, CowStep, KernelStep, ForkStep, ForkAligned, ViewOf, AfterWritten, Taken;
  }

  /** No run ever panics, and it stops exactly at an operation that cannot be carried out. */
  lemma StopsExactly(first: nat, ops: seq<Op>, run: seq<Machine>, trace: seq<Event>, i: nat)
    requires RunOf(first, ops, run, trace) && i < |trace|
    ensures AllLive(run[i], Live(first, trace[..i])) && !trace[i].Panicked?
    ensures Final(trace[i]) <==> Stops(run[i], Live(first, trace[..i]), ops[i], trace[i])
    ensures forall e | Stops(run[i], Live(first, trace[..i]), ops[i], e) :: e == trace[i] && i == |trace| - 1
  {
    hide Machine.Good, Answered, Final, Live, Stops, AllLive;
    assert GoodAt(first, run, trace, i) && AnsweredAt(first, ops, run, trace, i);
    AnswerStops(run[i], Live(first, trace[..i]), ops[i], trace[i], run[i + 1]);
  }

  /** So a run answers all operations unless the last answered one cannot be carried out. */
  lemma RunsToTheEnd(first: nat, ops: seq<Op>, run: seq<Machine>, trace: seq<Event>)
    requires RunOf(first, ops, run, trace)
    ensures
      var n := |trace| - 1;
      |trace| < |ops| ==>
        && n >= 0 && AllLive(run[n], Live(first, trace[..n]))
        && Stops(run[n], Live(first, trace[..n]), ops[n], trace[n])
  {
    hide Machine.Good, Answered, Final, Live, Stops, AllLive;
    if |trace| < |ops| {
      StopsExactly(first, ops, run, trace, |trace| - 1);
    }
  }

  // ---- operations are carried out ----------------------------------------

  /** What an access to a page does if it is carried out: a store changes the byte, a load returns it. */
  ghost predicate CarriedOut(a: Machine, x: Alias, write: bool, off: Offset, byte: Byte, e: Event, b: Machine) {
    && x in a.Contents()
    && if write then
         e == Wrote(x, off, byte) && x in b.Contents() && b.Contents()[x] == a.Contents()[x][off := byte]
       else
         e == Loaded(x, off, a.Contents()[x][off]) && b.Contents() == a.Contents()
  }

  /** A permitted access is carried out; any other is permitted afterwards, if its address is aligned and it does not
      stop the run. */
  lemma AccessDone(a: Machine, cr3: nat, write: bool, virt: Virt, byte: Byte, torn: Bytes, e: Event, b: Machine)
    requires a.Good() && a.Has(cr3) && virt.User() && |b.roles| == |b.arena.tables|
    requires Performed(a, cr3, write, virt, byte, torn, e, b)
    ensures Permitted(a.At(cr3, virt), write) ==>
              CarriedOut(a, Alias(cr3, virt.Page()), write, virt.off, byte, e, b)
    ensures !Permitted(a.At(cr3, virt), write) && virt.Aligned() && !Final(e) ==> Permitted(b.At(cr3, virt), write)
  {
    if !Permitted(a.At(cr3, virt), write) {
      hide TableLinked, Booked, Faulted, ContentsOf, ViewOf;
      FaultFacts(a, cr3, write, virt, torn, e, b);
    } else {
      hide TableLinked, Booked, Faulted;
      AccessFacts(a, cr3, write, virt, byte, torn, e, b);
      PageMapped(a.arena, a.roles, cr3, virt);
      assert UserPage(a.State(), Alias(cr3, virt.Page()));
    }
  }

  /** An aligned access that is made twice in a row is carried out, the first or the second time, unless it stops the
      run. */
  lemma TwiceIsEnough(first: nat, ops: seq<Op>, run: seq<Machine>, trace: seq<Event>, i: nat)
    requires RunOf(first, ops, run, trace) && UserOps(ops) && i + 1 < |trace| && ops[i] == ops[i + 1]
    requires ops[i].Access? && ops[i].virt.Aligned() && ops[i].task < |Live(first, trace[..i])|
    ensures
      var op, x := ops[i], Alias(Live(first, trace[..i])[ops[i].task], ops[i].virt.Page());
      || CarriedOut(run[i], x, op.write, op.virt.off, op.byte, trace[i], run[i + 1])
      || CarriedOut(run[i + 1], x, op.write, op.virt.off, op.byte, trace[i + 1], run[i + 2])
  {
    hide Machine.Good, Performed, CarriedOut, Final;
    var op, live := ops[i], Live(first, trace[..i]);
    assert GoodAt(first, run, trace, i) && AnsweredAt(first, ops, run, trace, i);
    assert GoodAt(first, run, trace, i + 1) && AnsweredAt(first, ops, run, trace, i + 1);
    assert GoodAt(first, run, trace, i + 2) && trace[..i + 1][..i] == trace[..i];
    assert live <= Live(first, trace[..i + 1]);
    AccessDone(run[i], live[op.task], op.write, op.virt, op.byte, op.torn, trace[i], run[i + 1]);
    AccessDone(run[i + 1], live[op.task], op.write, op.virt, op.byte, op.torn, trace[i + 1], run[i + 2]);
  }

  /** A fork that does not stop the run adds a task, with a space that did not exist. */
  lemma ForksHappen(first: nat, ops: seq<Op>, run: seq<Machine>, trace: seq<Event>, i: nat)
    requires RunOf(first, ops, run, trace) && i < |trace| && !Final(trace[i])
    requires ops[i].Spawn? && ops[i].task < |Live(first, trace[..i])|
    ensures
      var live, e := Live(first, trace[..i]), trace[i];
      && e.Forked? && e.parent == live[ops[i].task] && !run[i].Has(e.child) && run[i + 1].Has(e.child)
      && Live(first, trace[..i + 1]) == live + [e.child]
  {
    hide Machine.Good, ForkAligned;
    assert GoodAt(first, run, trace, i) && AnsweredAt(first, ops, run, trace, i);
    assert trace[..i + 1][..i] == trace[..i];
    var s, t := run[i].State(), run[i + 1].State();
    assert ForkStep(s, t, trace[i].parent, trace[i].child);
    assert run[i].Has(trace[i].child) <==> trace[i].child in s.view.spaces;
    assert run[i + 1].Has(trace[i].child) <==> trace[i].child in t.view.spaces;
  }

  // ---- kernel frames -----------------------------------------------------

  /** The frame is neither a user frame nor free. */
  ghost predicate OutOfReach(a: Machine, f: nat) { f !in a.pages && NotPooled(a.lists, f) }

  lemma TakenFacts(lists: seq<set<nat>>, f: nat)
    requires PagesAligned(lists) && !PoolEmpty(lists)
    ensures !NotPooled(lists, Taken(lists)) && NotPooled(AfterWritten(lists, PAGE_ORDER), Taken(lists))
    ensures NotPooled(lists, f) ==> NotPooled(AfterWritten(lists, PAGE_ORDER), f) && f != Taken(lists)
  {
    assert Least(lists[0]) in lists[0];
  }

  lemma AnswerReach(a: Machine, live: seq<nat>, op: Op, e: Event, b: Machine, f: nat)
    requires a.Good() && AllLive(a, live) && Answered(a, live, op, e, b) && (op.Access? ==> op.virt.User())
    requires OutOfReach(a, f)
    ensures OutOfReach(b, f)
  {
    hide Linked, Booked, ScratchOk, ViewOf, AfterWritten, Taken, ForkAligned, NotPooled, UserWrite, TablesGrow;
    if !PoolEmpty(a.lists) {
      TakenFacts(a.lists, f);
    }
  }

  /** A frame that is neither a user frame nor free never becomes a user frame. */
  lemma {:induction false} NeverAUserFrame(first: nat, ops: seq<Op>, run: seq<Machine>, trace: seq<Event>, i: nat,
                                           j: nat, f: nat)
    requires RunOf(first, ops, run, trace) && UserOps(ops) && i <= j <= |trace| && OutOfReach(run[i], f)
    ensures OutOfReach(run[j], f)
    decreases j
  {
    hide Machine.Good, Answered, Live, OutOfReach, AllLive, Final;
    if i < j {
      NeverAUserFrame(first, ops, run, trace, i, j - 1, f);
      assert GoodAt(first, run, trace, j - 1) && AnsweredAt(first, ops, run, trace, j - 1);
      AnswerReach(run[j - 1], Live(first, trace[..j - 1]), ops[j - 1], trace[j - 1], run[j], f);
    }
  }

  /** What the kernel half of a space maps is neither a user frame nor free. */
  ghost predicate Apart(a: Machine, c: nat, v: Virt) {
    a.At(c, v).Mapped? ==> OutOfReach(a, a.At(c, v).page)
  }

  ghost predicate HalvesApart(a: Machine) {
    forall c: nat, v: Virt | a.Has(c) && !v.User() && v.Aligned() :: Apart(a, c, v)
  }

  /** Where the kernel half of a space maps something after a fault, it did so before, or it is the page left behind. */
  lemma FaultKernelView(a: Machine, cr3: nat, write: bool, virt: Virt, torn: Bytes, e: Event, b: Machine, c: nat,
                        v: Virt)
    requires a.Good() && a.Has(cr3) && virt.User() && Faulted(a, cr3, write, virt, torn, e, b)
    requires b.Has(c) && !v.User() && v.Aligned() && b.At(c, v).Mapped?
    ensures a.Has(c)
    ensures b.At(c, v) == a.At(c, v)
            || (!PoolEmpty(a.lists) && b.At(c, v).page == Taken(a.lists) && OutOfReach(b, Taken(a.lists)))
  {
    hide TableLinked, ScratchOk, ViewOf, AfterWritten, Taken, NotPooled, TablesGrow, TablesSame;
    ViewAt(a.arena, a.roles, cr3, virt);
    ViewAt(b.arena, b.roles, c, v);
    FaultSpaces(a, cr3, write, virt, torn, e, b, c);
    if !PoolEmpty(a.lists) {
      TakenFacts(a.lists, 0);
    }
    if a.At(cr3, virt).Mapped? && a.At(cr3, virt).page in a.pages {
      var f := a.At(cr3, virt).page;
      assert Alias(c, v) in a.pages[f].aliases ==> AliasTrue(a.State().view, f, Alias(c, v));
    }
  }

  lemma FaultSpaces(a: Machine, cr3: nat, write: bool, virt: Virt, torn: Bytes, e: Event, b: Machine, c: nat)
    requires Faulted(a, cr3, write, virt, torn, e, b)
    ensures b.Has(c) <==> a.Has(c)
  {
    hide Booked, TableLinked, AfterWritten, Taken;
    assert a.State().view.spaces == b.State().view.spaces;
    assert b.Has(c) <==> c in b.State().view.spaces;
    assert a.Has(c) <==> c in a.State().view.spaces;
  }

  lemma AnswerApart(a: Machine, live: seq<nat>, op: Op, e: Event, b: Machine, c: nat, v: Virt)
    requires a.Good() && AllLive(a, live) && Answered(a, live, op, e, b) && (op.Access? ==> op.virt.User())
    requires HalvesApart(a) && b.Has(c) && !v.User() && v.Aligned()
    ensures Apart(b, c, v)
  {
    hide Machine.Good, Faulted, ForkStep, ForkAligned, ViewOf, OutOfReach;
    if b.At(c, v).Mapped? {
      if op.task < |live| && op.Access? && !Permitted(a.At(live[op.task], op.virt), op.write) {
        FaultKernelView(a, live[op.task], op.write, op.virt, op.torn, e, b, c, v);
        assert Apart(a, c, v);
      } else if op.task < |live| && op.Spawn? && e.Forked? {
        SpawnKernelView(a, live[op.task], e, b, c, v);
        assert Apart(a, c, v) || Apart(a, live[op.task], v);
      } else {
        assert Apart(a, c, v);
      }
      if OutOfReach(a, b.At(c, v).page) {
        AnswerReach(a, live, op, e, b, b.At(c, v).page);
      }
    }
  }

  /** The user half never reaches what the kernel half maps: in every run from a state where the two are apart, they
      stay so. */
  lemma {:induction false} RunsApart(first: nat, ops: seq<Op>, run: seq<Machine>, trace: seq<Event>, i: nat)
    requires RunOf(first, ops, run, trace) && UserOps(ops) && HalvesApart(run[0]) && i <= |trace|
    ensures HalvesApart(run[i])
    decreases i
  {
    hide Machine.Good, Answered, Live, Apart, AllLive, Final, Machine.Has;
    if i > 0 {
      RunsApart(first, ops, run, trace, i - 1);
      assert GoodAt(first, run, trace, i - 1) && AnsweredAt(first, ops, run, trace, i - 1);
      forall c: nat, v: Virt | run[i].Has(c) && !v.User() && v.Aligned()
        ensures Apart(run[i], c, v)
      {
        AnswerApart(run[i - 1], Live(first, trace[..i - 1]), ops[i - 1], trace[i - 1], run[i], c, v);
      }
    }
  }

  lemma SpawnKernelView(a: Machine, cr3: nat, e: Event, b: Machine, c: nat, v: Virt)
    requires a.Has(cr3) && e.Forked? && ForkStep(a.State(), b.State(), cr3, e.child)
    requires b.Has(c) && !v.User() && v.Aligned()
    ensures if c == e.child then b.At(c, v) == a.At(cr3, v) else a.Has(c) && b.At(c, v) == a.At(c, v)
  {
    assert c in b.State().view.spaces;
    assert a.Has(c) <==> c in a.State().view.spaces;
  }

  // ---- flags of the user half --------------------------------------------

  /** No flag but present and RW. */
  predicate Plain(f: Flags) { f == Flags(f.present, f.rw, false, {}) }

  ghost predicate PlainAt(a: Machine, c: nat, v: Virt, k: nat) { Plain(a.State().view.flags(c, v, k)) }

  ghost predicate UserPlain(a: Machine) {
    forall c: nat, v: Virt, k: nat | a.Has(c) && v.User() && k <= 3 :: PlainAt(a, c, v, k)
  }

  lemma FaultPlain(a: Machine, cr3: nat, write: bool, virt: Virt, torn: Bytes, e: Event, b: Machine, c: nat, v: Virt,
                   k: nat)
    requires virt.User() && Faulted(a, cr3, write, virt, torn, e, b)
    requires a.Has(c) && k <= 3 && PlainAt(a, c, v, k)
    ensures PlainAt(b, c, v, k)
  {
    hide Translate, SlotFlags, LastTable, AfterWritten, Taken, UserWrite, KernelWrite, TablesGrow, Dropped;
    assert c in a.State().view.spaces;
  }

  lemma SpawnPlain(a: Machine, cr3: nat, e: Event, b: Machine, c: nat, v: Virt, k: nat)
    requires a.Has(cr3) && e.Forked? && ForkStep(a.State(), b.State(), cr3, e.child)
    requires UserPlain(a) && b.Has(c) && v.User() && k <= 3
    ensures PlainAt(b, c, v, k)
  {
    hide Translate, SlotFlags, LastTable;
    assert c in b.State().view.spaces && (a.Has(c) <==> c in a.State().view.spaces);
    assert PlainAt(a, cr3, v, k) && (a.Has(c) ==> PlainAt(a, c, v, k));
  }

  lemma AnswerPlain(a: Machine, live: seq<nat>, op: Op, e: Event, b: Machine, c: nat, v: Virt, k: nat)
    requires AllLive(a, live) && Answered(a, live, op, e, b) && (op.Access? ==> op.virt.User())
    requires UserPlain(a) && b.Has(c) && v.User() && k <= 3
    ensures PlainAt(b, c, v, k)
  {
    hide Faulted, ForkStep, ForkAligned, ViewOf, PlainAt;
    if op.task < |live| && op.Access? && !Permitted(a.At(live[op.task], op.virt), op.write) {
      FaultSpaces(a, live[op.task], op.write, op.virt, op.torn, e, b, c);
      FaultPlain(a, live[op.task], op.write, op.virt, op.torn, e, b, c, v, k);
    } else if op.task < |live| && op.Spawn? && e.Forked? {
      SpawnPlain(a, live[op.task], e, b, c, v, k);
    } else {
      assert PlainAt(a, c, v, k);
      PlainFrame(a, b, c, v, k);
    }
  }

  lemma PlainFrame(a: Machine, b: Machine, c: nat, v: Virt, k: nat)
    requires b.arena == a.arena && b.roles == a.roles && PlainAt(a, c, v, k)
    ensures PlainAt(b, c, v, k)
  {
  }

  /** In every run from such a state, no entry of a user half ever gets a flag other than present and RW. */
  lemma {:induction false} RunsPlain(first: nat, ops: seq<Op>, run: seq<Machine>, trace: seq<Event>, i: nat)
    requires RunOf(first, ops, run, trace) && UserOps(ops) && UserPlain(run[0]) && i <= |trace|
    ensures UserPlain(run[i])
    decreases i
  {
    hide Machine.Good, Answered, Live, PlainAt, AllLive, Final, Machine.Has;
    if i > 0 {
      RunsPlain(first, ops, run, trace, i - 1);
      assert GoodAt(first, run, trace, i - 1) && AnsweredAt(first, ops, run, trace, i - 1);
      forall c: nat, v: Virt, k: nat | run[i].Has(c) && v.User() && k <= 3
        ensures PlainAt(run[i], c, v, k)
      {
        AnswerPlain(run[i - 1], Live(first, trace[..i - 1]), ops[i - 1], trace[i - 1], run[i], c, v, k);
      }
    }
  }

  /** So the leaf of a user page is known down to the last bit: the frame, present, and RW if it permits writes. */
  lemma PlainLeaf(a: Machine, cr3: nat, virt: Virt)
    requires Linked(a.arena, a.roles) && UserPlain(a) && a.Has(cr3) && virt.User() && a.At(cr3, virt).Mapped?
    ensures
      var w := Walk(a.arena, a.arena.TableOf(cr3), 0, virt);
      w.Leaf? && w.entry == Entry(Flags(true, a.At(cr3, virt).writable, false, {}), a.At(cr3, virt).page)
  {
    hide UserPlain, Linked;
    PlainHere(a, cr3, virt, 3);
    UserDepth(a.arena, a.roles, cr3, virt);
    LeafFlags(a.arena, a.roles, cr3, virt);
    UserLeafPresent(a.arena, a.roles, cr3, virt);
  }

  lemma UserLeafPresent(a: Arena, roles: seq<Role>, cr3: nat, virt: Virt)
    requires Linked(a, roles) && IsSpace(a, roles, cr3) && Translate(a, cr3, virt).Mapped?
    ensures
      var w := Walk(a, a.TableOf(cr3), 0, virt);
      w.Leaf? && w.entry.flags.present
  {
    assert TableLinked(a, roles, a.TableOf(cr3));
    WalkOnRoles(a, roles, a.TableOf(cr3), a.TableOf(cr3), 0, virt);
  }

  lemma PlainHere(a: Machine, c: nat, v: Virt, k: nat)
    requires UserPlain(a) && a.Has(c) && v.User() && k <= 3
    ensures Plain(SlotFlags(a.arena, c, v, k))
  {
    assert PlainAt(a, c, v, k);
  }
}
