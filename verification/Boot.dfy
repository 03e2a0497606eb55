/** From boot to any run of user programs. */
module Boot {
  import opened PageTables
  import opened FrameTable
  import opened ForkExact
  import opened PhysicalPages
  import opened Contents
  import opened Mapping
  import opened Steps
  import opened Runs
  import opened MemoryMap

  /** The page tables lie in the 2 MiB from 0x200000. */
  const ARENA_BASE := 0x200
  const ARENA_TABLES := 512

  /** The frames are the usable memory above the kernel span. */
  ghost predicate FramesOf(table: seq<Descriptor>, frames: set<nat>) {
    forall f: nat :: f in frames <==> f in UsablePages(table)
  }

  ghost predicate EmptyUserHalf(arena: Arena, roles: seq<Role>) {
    forall c: nat, v: Virt | IsSpace(arena, roles, c) && v.User() :: Translate(arena, c, v) == NotMapped
  }

  /** The kernel half maps no usable memory above the kernel span. */
  ghost predicate KernelOutside(table: seq<Descriptor>, arena: Arena, roles: seq<Role>) {
    forall c: nat, v: Virt | IsSpace(arena, roles, c) && !v.User() && Translate(arena, c, v).Mapped? ::
      Translate(arena, c, v).page !in UsablePages(table)
  }

  /** `init_mm`: the mapper starts in its invariant. */
  method InitMapper(table: seq<Descriptor>, arena: Arena, ghost roles: seq<Role>, ram: PhysicalMemory)
    returns (m: Mapper)
    requires SeparateMap(table) && FramesOf(table, ram.frames)
    requires Linked(arena, roles) && EmptyUserHalf(arena, roles)
    ensures fresh(m) && fresh(m.allocator) && m.Inv()
    ensures m.arena == arena && m.roles == roles && m.pages == map[] && m.ram == ram
  {
    hide Linked, InMap, Translate;
    var allocator, blocks := InitAllocator(table);
    m := new Mapper(arena, allocator, ram, roles);
    forall a | a in allocator.freeLists[0]
      ensures a % 4096 == 0 && a / 4096 in ram.frames
    {
      ListedPage(allocator.freeLists, a);
    }
  }

  /** No user page is ever mapped to a page table. */
  lemma NeverATable(m: Mapper, table: seq<Descriptor>)
    requires m.Inv() && FramesOf(table, m.ram.frames) && m.arena.base == ARENA_BASE && |m.arena.tables| <= ARENA_TABLES
    ensures FramesApart(m.pages, m.arena)
  {
    UsableIsHigh(table);
    TablesApart(m.pages, m.arena);
  }

  /** Any run from boot on keeps the copy-on-write invariant, isolates the programs from each other (`RunOf`), and maps
      no user page to a page table. */
  method BootAndRun(table: seq<Descriptor>, arena: Arena, ghost roles: seq<Role>, ram: PhysicalMemory, first: nat,
                    ops: seq<Op>)
    returns (m: Mapper, trace: seq<Event>, live: seq<nat>, ghost run: seq<Machine>)
    requires SeparateMap(table) && FramesOf(table, ram.frames) && arena.base == ARENA_BASE
    requires Linked(arena, roles) && EmptyUserHalf(arena, roles) && IsSpace(arena, roles, first)
    requires ScratchOk(State.State(ViewOf(arena, roles), map[])) && UserOps(ops)
    modifies ram
    ensures m.Inv() && RunOf(first, ops, run, trace) && run[|trace|] == Snapshot(m) && live == Live(first, trace)
    ensures run[0].arena == arena && run[0].pages == map[] && run[0].ram == old(ram.bytes)
    ensures |m.arena.tables| <= ARENA_TABLES ==> FramesApart(m.pages, m.arena)
    ensures KernelOutside(table, arena, roles) ==> forall i: nat | i <= |trace| :: HalvesApart(run[i])
  {
    hide Linked, EmptyUserHalf, SeparateMap, ScratchOk, UserOps, GoodAt, AnsweredAt, HalvesApart, KernelOutside, Live;
    m := InitMapper(table, arena, roles, ram);
    StartsApart(m, table);
    trace, live, run := Execute(m, first, ops);
    if |m.arena.tables| <= ARENA_TABLES {
      NeverATable(m, table);
    }
    if KernelOutside(table, arena, roles) {
      forall i: nat | i <= |trace| ensures HalvesApart(run[i]) {
        RunsApart(first, ops, run, trace, i);
      }
    }
  }

  lemma StartsApart(m: Mapper, table: seq<Descriptor>)
    requires m.Inv() && FramesOf(table, m.ram.frames) && m.pages == map[]
    ensures KernelOutside(table, m.arena, m.roles) ==> HalvesApart(Snapshot(m))
  {
    if KernelOutside(table, m.arena, m.roles) {
      hide Linked, Booked, UsablePages;
      var a := Snapshot(m);
      forall c: nat, v: Virt | a.Has(c) && !v.User() && v.Aligned()
        ensures Apart(a, c, v)
      {
        ViewAt(a.arena, a.roles, c, v);
        assert a.At(c, v) == Translate(m.arena, c, v);
      }
    }
  }
}
