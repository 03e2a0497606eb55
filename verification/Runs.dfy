/** Page faults, and whole runs of user programs: accesses, faults and forks in any order. */
module Runs {
  import opened Basics
  import opened PageTables
  import opened FrameTable
  import opened PhysicalPages
  import opened Cloning
  import opened Forking
  import opened ForkEffect
  import opened Contents
  import opened Mapping
  import opened Steps

  ghost function Snapshot(m: Mapper): Machine
    reads m, m.ram, m.allocator
  {
    Machine(m.arena, m.roles, m.pages, m.ram.bytes, m.allocator.freeLists)
  }

  lemma InvGood(m: Mapper)
    requires m.Inv() && ScratchOk(m.State())
    ensures Snapshot(m).Good()
  {
    hide Booked, TableLinked, ScratchOk;
  }

  lemma NothingTaken(lists: seq<set<nat>>)
    ensures PoolEmpty(lists) ==> AfterWritten(lists, PAGE_ORDER) == lists
  {
  }

  /** `page_fault_handler` for an address that is not mapped. */
  method FillFault(m: Mapper, cr3: nat, ghost write: bool, virt: Virt, ghost torn: Bytes) returns (e: Event)
    requires m.Inv() && m.Space(cr3) && ScratchOk(m.State()) && m.State().view.at(cr3, virt) == NotMapped
    requires virt != ORIGIN
    modifies m`arena, m`roles, m`pages, m.allocator
    ensures m.Inv() && Grown(old(m.arena), old(m.roles), m.arena, m.roles)
    ensures Faulted(old(Snapshot(m)), cr3, write, virt, torn, e, Snapshot(m))
  {
    hide Booked, Linked, Grown, ScratchOk, FramesOk, AfterWritten;
    ghost var a := Snapshot(m);
    NothingTaken(a.lists);
    var ok := m.AllocPageAt(cr3, virt);
    if ok.OutOfMemory? {
      e := Exhausted;
    } else if ok.Err? {
      e := Refaults(virt);
    } else if virt.User() {
      e := Filled(Alias(cr3, virt), FrameBytes(m.ram.bytes, Translate(m.arena, cr3, virt).page));
    } else {
      e := KernelFilled(virt);
    }
  }

  /** `page_fault_handler` for a write to a present page. */
  method CowFault(m: Mapper, cr3: nat, virt: Virt, torn: Bytes) returns (e: Event)
    requires m.Inv() && m.Space(cr3) && ScratchOk(m.State()) && virt.User() && m.State().view.at(cr3, virt).Mapped?
    modifies m`arena, m`roles, m`pages, m.allocator, m.ram
    ensures m.Inv() && Grown(old(m.arena), old(m.roles), m.arena, m.roles)
    ensures Faulted(old(Snapshot(m)), cr3, true, virt, torn, e, Snapshot(m))
  {
    hide Booked, TableLinked, Grown, CowStep, KernelStep, Translate, FramesOk, AfterWritten;
    ghost var a := Snapshot(m);
    NothingTaken(a.lists);
    assert cr3 in m.State().view.spaces;
    var ok := m.Cow(cr3, virt, SCRATCH, torn);
    match ok
    case Panic => e := Panicked;
    case OutOfMemory => e := Exhausted;
    case Err(_) => e := Refaults(virt);
    case Ok => e := Copied(Alias(cr3, virt));
  }

  /** `page_fault_handler`. The error code says whether the page was present and whether the access was a write.
      After the handler returns, the access is permitted if and only if the address is page-aligned. */
  method PageFault(m: Mapper, cr3: nat, present: bool, write: bool, virt: Virt, torn: Bytes) returns (e: Event)
    requires m.Inv() && m.Space(cr3) && ScratchOk(m.State())
    requires present <==> m.State().view.at(cr3, virt).Mapped?
    requires present ==> virt.User()
    modifies m`arena, m`roles, m`pages, m.allocator, m.ram
    ensures m.Inv() && ScratchOk(m.State()) && Grown(old(m.arena), old(m.roles), m.arena, m.roles)
    ensures Faulted(old(Snapshot(m)), cr3, write, virt, torn, e, Snapshot(m))
    ensures !Permitted(old(m.State()).view.at(cr3, virt), write) ==>
              (Permitted(m.State().view.at(cr3, virt), write) <==> !Final(e) && virt.Aligned())
    ensures ContentsOf(m.State(), m.ram.bytes) == Eager(old(ContentsOf(m.State(), m.ram.bytes)), e)
  {
    hide Booked, TableLinked, FramesOk, ScratchOk, AfterWritten, FillStep, CowStep, KernelStep, ContentsOf, Eager;
    ghost var a := Snapshot(m);
    InvGood(m);
    if !present {
      if virt == ORIGIN {
        e := Halted;
      } else {
        NeverWild(m.arena, m.roles, cr3, virt);
        e := FillFault(m, cr3, write, virt, torn);
      }
    } else if write {
      e := CowFault(m, cr3, virt, torn);
    } else {
      e := Halted;
    }
    FaultFacts(a, cr3, write, virt, torn, e, Snapshot(m));
  }

  lemma NeverWild(a: Arena, roles: seq<Role>, cr3: nat, v: Virt)
    requires Linked(a, roles) && IsSpace(a, roles, cr3)
    ensures !Translate(a, cr3, v).WildWalk?
  {
    assert TableLinked(a, roles, a.TableOf(cr3));
    WalkOnRoles(a, roles, a.TableOf(cr3), a.TableOf(cr3), 0, v);
  }

  // ---- runs --------------------------------------------------------------

  /** Existing tables keep their roles and their pointers. */
  ghost predicate Kept(a: Arena, roles: seq<Role>, b: Arena, roles': seq<Role>) {
    |roles| == |a.tables| && |roles'| == |b.tables| && roles <= roles' && PointersKept(a, roles, b)
  }

  lemma KeptTrans(a: Arena, roles: seq<Role>, m: Arena, roles': seq<Role>, b: Arena, roles'': seq<Role>)
    requires Kept(a, roles, m, roles') && Kept(m, roles', b, roles'')
    ensures Kept(a, roles, b, roles'')
  {
  }

  lemma GrownIsKept(a: Arena, roles: seq<Role>, b: Arena, roles': seq<Role>)
    requires Grown(a, roles, b, roles')
    ensures Kept(a, roles, b, roles')
  {
  }

  lemma KeptLive(a: Machine, b: Machine, live: seq<nat>)
    requires Kept(a.arena, a.roles, b.arena, b.roles) && AllLive(a, live)
    ensures AllLive(b, live)
  {
  }

  /** One access of a user program: it succeeds, or it faults. */
  method Perform(m: Mapper, cr3: nat, write: bool, virt: Virt, byte: Byte, torn: Bytes) returns (e: Event)
    requires m.Inv() && m.Space(cr3) && ScratchOk(m.State()) && virt.User()
    modifies m`arena, m`roles, m`pages, m.allocator, m.ram
    ensures m.Inv() && ScratchOk(m.State()) && Kept(old(m.arena), old(m.roles), m.arena, m.roles)
    ensures Performed(old(Snapshot(m)), cr3, write, virt, byte, torn, e, Snapshot(m))
  {
    hide Booked, TableLinked, ContentsOf, ScratchOk, FramesOk, Grown, Faulted;
    ghost var a := Snapshot(m);
    var t := Translate(m.arena, cr3, virt);
    if !Permitted(t, write) {
      e := PageFault(m, cr3, t.Mapped?, write, virt, torn);
      GrownIsKept(old(m.arena), old(m.roles), m.arena, m.roles);
    } else {
      StartKept(m.arena, m.roles);
      var bytes := FrameBytes(m.ram.bytes, t.page);
      if write {
        m.ram.bytes := m.ram.bytes[t.page := bytes[virt.off := byte]];
        e := Wrote(Alias(cr3, virt.Page()), virt.off, byte);
      } else {
        e := Loaded(Alias(cr3, virt.Page()), virt.off, bytes[virt.off]);
      }
    }
  }

  lemma StartKept(a: Arena, roles: seq<Role>)
    requires Linked(a, roles)
    ensures Kept(a, roles, a, roles)
  {
  }

  /** One fork of a user program, unless it would divert a pointer. */
  method Duplicate(m: Mapper, cr3: nat) returns (e: Event)
    requires m.Inv() && m.Space(cr3) && ScratchOk(m.State())
    modifies m`arena, m`roles, m`pages
    ensures m.Inv() && ScratchOk(m.State()) && Kept(old(m.arena), old(m.roles), m.arena, m.roles)
    ensures Spawned(old(Snapshot(m)), cr3, e, Snapshot(m)) && (e.Forked? ==> m.Space(e.child))
  {
    hide Booked, TableLinked, ContentsOf, FramesOk, Finished, ForkAligned, ScratchOk, ForkStep;
    ghost var a := Snapshot(m);
    InvGood(m);
    StartKept(m.arena, m.roles);
    if !ForkAligned(m.arena, m.arena.TableOf(cr3), |m.arena.tables|) {
      return Diverted;
    }
    var child := m.Fork(cr3);
    e := Forked(cr3, child);
    SpawnFacts(a, cr3, e, Snapshot(m));
  }

  /** One operation of the task that it names. */
  method Answer(m: Mapper, live: seq<nat>, op: Op) returns (e: Event)
    requires m.Inv() && ScratchOk(m.State()) && AllLive(Snapshot(m), live) && (op.Access? ==> op.virt.User())
    modifies m`arena, m`roles, m`pages, m.allocator, m.ram
    ensures m.Inv() && ScratchOk(m.State()) && Kept(old(m.arena), old(m.roles), m.arena, m.roles)
    ensures Answered(old(Snapshot(m)), live, op, e, Snapshot(m)) && (e.Forked? ==> m.Space(e.child))
  {
    hide Booked, TableLinked, FramesOk, ScratchOk, Kept, Performed, Spawned;
    if op.task >= |live| {
      StartKept(m.arena, m.roles);
      return Absent;
    }
    match op
    case Access(task, write, virt, byte, torn) =>
      ghost var a := Snapshot(m);
      InvGood(m);
      e := Perform(m, live[task], write, virt, byte, torn);
      AccessFacts(a, live[task], write, virt, byte, torn, e, Snapshot(m));
    case Spawn(task) =>
      e := Duplicate(m, live[task]);
  }

  lemma RunStarts(first: nat, a: Machine)
    requires a.Good() && a.Has(first)
    ensures RunSoFar(first, [], [a], []) && Live(first, []) == [first] && AllLive(a, [first])
  {
  }

  /** `RunOf`, before it is known why the run stops. */
  ghost predicate RunSoFar(first: nat, ops: seq<Op>, run: seq<Machine>, trace: seq<Event>) {
    RunOf(first, ops, run, trace) && |trace| == |ops|
  }

  lemma RunGoesOn(first: nat, ops: seq<Op>, run: seq<Machine>, trace: seq<Event>, live: seq<nat>, op: Op, e: Event,
                  b: Machine)
    requires RunSoFar(first, ops, run, trace) && (trace != [] ==> !Final(trace[|trace| - 1]))
    requires live == Live(first, trace) && AllLive(b, live) && b.Good() && (e.Forked? ==> b.Has(e.child))
    requires AllLive(run[|trace|], live) && Answered(run[|trace|], live, op, e, b)
    ensures RunSoFar(first, ops + [op], run + [b], trace + [e])
    ensures Live(first, trace + [e]) == if e.Forked? then live + [e.child] else live
    ensures AllLive(b, Live(first, trace + [e]))
  {
    hide Machine.Good, Machine.Has, Answered, Final, AllLive, Live;
    var run', trace' := run + [b], trace + [e];
    LiveStep(first, trace, e);
    AllLiveStep(b, live, e);
    assert trace'[..|trace|] == trace == trace[..|trace|] && trace'[..|trace'|] == trace';
    assert GoodAt(first, run', trace', |trace'|);
    forall i: nat | i <= |trace| ensures GoodAt(first, run', trace', i) {
      assert GoodAt(first, run, trace, i) && trace'[..i] == trace[..i];
    }
    forall i: nat | i < |trace'| ensures AnsweredAt(first, ops + [op], run', trace', i) {
      if i < |trace| {
        assert AnsweredAt(first, ops, run, trace, i) && trace'[..i] == trace[..i];
      }
    }
  }

  lemma LiveStep(first: nat, trace: seq<Event>, e: Event)
    ensures Live(first, trace + [e]) == if e.Forked? then Live(first, trace) + [e.child] else Live(first, trace)
  {
    assert (trace + [e])[..|trace|] == trace;
  }

  lemma AllLiveStep(b: Machine, live: seq<nat>, e: Event)
    requires AllLive(b, live) && (e.Forked? ==> b.Has(e.child))
    ensures AllLive(b, if e.Forked? then live + [e.child] else live)
  {
  }

  /** Any run of user programs, until the operations are used up, the machine stops, memory is exhausted, or a fork
      would divert a pointer. Every operation is answered by the task that it names (`RunOf`); the copy-on-write
      invariant holds throughout, and what the programs see is what they would see if `fork` copied all pages at
      once. */
  method Execute(m: Mapper, first: nat, ops: seq<Op>)
    returns (trace: seq<Event>, live: seq<nat>, ghost run: seq<Machine>)
    requires m.Inv() && m.Space(first) && ScratchOk(m.State()) && UserOps(ops)
    modifies m`arena, m`roles, m`pages, m.allocator, m.ram
    ensures m.Inv() && Kept(old(m.arena), old(m.roles), m.arena, m.roles)
    ensures RunOf(first, ops, run, trace) && run[0] == old(Snapshot(m)) && run[|trace|] == Snapshot(m)
    ensures live == Live(first, trace) && forall i: nat | i < |trace| :: !trace[i].Panicked?
    ensures ContentsOf(m.State(), m.ram.bytes) == EagerRun(old(ContentsOf(m.State(), m.ram.bytes)), trace)
  {
    hide Booked, Linked, ScratchOk, FramesOk, Kept, Live, RunSoFar, Answered, EagerRun, AllLive;
    StartKept(m.arena, m.roles);
    trace, live, run := [], [first], [Snapshot(m)];
    InvGood(m);
    RunStarts(first, Snapshot(m));
    var k := 0;
    while k < |ops|
      invariant k == |trace| <= |ops| && |run| == k + 1
      invariant m.Inv() && ScratchOk(m.State()) && Kept(old(m.arena), old(m.roles), m.arena, m.roles)
      invariant RunSoFar(first, ops[..k], run, trace) && run[0] == old(Snapshot(m)) && run[k] == Snapshot(m)
      invariant live == Live(first, trace) && AllLive(Snapshot(m), live)
      invariant trace != [] ==> !Final(trace[k - 1])
    {
      ghost var a := Snapshot(m);
      var e := Answer(m, live, ops[k]);
      InvGood(m);
      KeptLive(a, Snapshot(m), live);
      KeptTrans(old(m.arena), old(m.roles), a.arena, a.roles, m.arena, m.roles);
      RunGoesOn(first, ops[..k], run, trace, live, ops[k], e, Snapshot(m));
      assert ops[..k] + [ops[k]] == ops[..k + 1];
      trace, run := trace + [e], run + [Snapshot(m)];
      live := if e.Forked? then live + [e.child] else live;
      k := k + 1;
      if Final(e) {
        break;
      }
    }
    RunEnds(first, ops, run, trace);
    RunIsEager(first, ops, run, trace, |trace|);
    assert trace[..|trace|] == trace;
    forall i: nat | i < |trace| ensures !trace[i].Panicked? {
      StopsExactly(first, ops, run, trace, i);
    }
  }

  lemma RunEnds(first: nat, ops: seq<Op>, run: seq<Machine>, trace: seq<Event>)
    requires |trace| <= |ops| && RunSoFar(first, ops[..|trace|], run, trace)
    requires |trace| < |ops| ==> trace != [] && Final(trace[|trace| - 1])
    ensures RunOf(first, ops, run, trace)
  {
    hide GoodAt, Answered, Final, Live;
    forall i: nat | i < |trace| ensures AnsweredAt(first, ops, run, trace, i) {
      assert AnsweredAt(first, ops[..|trace|], run, trace, i);
    }
  }

  // ---- sharing -----------------------------------------------------------

  /** A kernel slot of the PML4 that is present at fork time is the same in parent and child. */
  lemma ForkSharesSlot(g: Source, b: Arena, roles: seq<Role>, pages: Frames, i: Index)
    requires Finished(g, b, roles, pages) && USER_SLOTS <= i && g.a.At(g.root, i).flags.present
    ensures b.At(|g.a.tables|, i) == b.At(g.root, i) && b.At(g.root, i).flags.present
  {
    assert RootEntryCloned(g.a, b, g.root, |g.a.tables|, i);
    ClonedFields(g.a.At(g.root, i), 0);
    assert TableLinked(g.a, g.roles, g.root);
    assert b.At(g.root, i) == b.At(g.root, i);
  }

  /** However the run goes on, two spaces that share a slot translate everything below it alike. */
  lemma SharedForever(a: Arena, roles: seq<Role>, b: Arena, roles': seq<Role>, c: nat, d: nat, v: Virt)
    requires Linked(b, roles') && Kept(a, roles, b, roles') && IsSpace(a, roles, c) && IsSpace(a, roles, d)
    requires a.At(a.TableOf(c), v.i4) == a.At(a.TableOf(d), v.i4) && a.At(a.TableOf(c), v.i4).flags.present
    ensures Translate(b, c, v) == Translate(b, d, v)
  {
    assert IsPointer(roles[a.TableOf(c)], a.At(a.TableOf(c), v.i4));
    assert IsPointer(roles[a.TableOf(d)], a.At(a.TableOf(d), v.i4));
    SharedSlot(b, roles', c, d, v);
  }

  /** A kernel mapping under a slot that was present at fork time is the same for parent and child at the end
      of every later run, whichever of them added it. */
  lemma KernelStaysShared(g: Source, a: Arena, roles: seq<Role>, pages: Frames, b: Arena, roles': seq<Role>, v: Virt)
    requires Finished(g, a, roles, pages) && ForkAligned(g.a, g.root, |g.a.tables|)
    requires Linked(b, roles') && Kept(a, roles, b, roles')
    requires !v.User() && g.a.At(g.root, v.i4).flags.present
    ensures Translate(b, g.Cr3(), v) == Translate(b, g.child, v)
  {
    ForkSharesSlot(g, a, roles, pages, v.i4);
    ForkKeepsLinks(g, a, roles, pages);
    assert IsSpace(a, roles, g.Cr3()) && IsSpace(a, roles, g.child);
    SharedForever(a, roles, b, roles', g.Cr3(), g.child, v);
  }
}
