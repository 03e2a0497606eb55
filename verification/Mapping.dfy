/** The mapper: map, unmap, fork, page allocation and copy-on-write over the page-table arena. */
module Mapping {
  import opened PageTables
  import opened FrameTable
  import opened BuddyBlocks
  import opened PhysicalPages
  import opened Cloning
  import opened Forking
  import opened ForkEffect
  import opened Contents

  datatype PagingError = MisalignedPhys(phys: nat) | MisalignedVirt(virt: Virt)

  /** `OutOfMemory` stands for the panics on an exhausted page allocator, `Panic` for those on a page that is not
      mapped as it should be. */
  datatype Outcome = Ok | Err(error: PagingError) | OutOfMemory | Panic

  /** Mapped frames exist, and the pages the allocator may still hand out are frames that nobody maps in a
      user half. */
  ghost predicate FramesOk(lists: seq<set<nat>>, mapped: set<nat>, frames: set<nat>) {
    && mapped <= frames && |lists| <= LEVELS
    && (|lists| > 0 ==> forall p | p in lists[0] :: p % 4096 == 0 && p / 4096 !in mapped && p / 4096 in frames)
  }

  ghost predicate NotPooled(lists: seq<set<nat>>, page: nat) {
    |lists| > 0 ==> 4096 * page !in lists[0]
  }

  predicate PoolEmpty(lists: seq<set<nat>>) { |lists| == 0 || lists[0] == {} }

  /** The page that `allocate` takes off the free list. */
  ghost function Taken(lists: seq<set<nat>>): nat
    requires !PoolEmpty(lists)
  {
    Least(lists[0]) / 4096
  }

  /** The physical frames outside the arena. */
  class PhysicalMemory {
    const frames: set<nat>
    var bytes: Ram

    constructor (bytes: Ram)
      ensures this.bytes == bytes && frames == bytes.Keys
    {
      this.bytes := bytes;
      this.frames := bytes.Keys;
    }
  }

  class Mapper {
    var arena: Arena
    var pages: Frames
    const allocator: PageAllocator

    const ram: PhysicalMemory

    /** The role of every table of the arena. */
    ghost var roles: seq<Role>

    ghost function State(): State
      reads this
    {
      FrameTable.State.State(ViewOf(arena, roles), pages)
    }

    ghost predicate Sound()
      reads this
    {
      Linked(arena, roles) && Booked(State())
    }

    ghost predicate Inv()
      reads this, allocator
    {
      Sound() && FramesOk(allocator.freeLists, pages.Keys, ram.frames)
    }

    ghost predicate Space(cr3: nat)
      reads this
    {
      IsSpace(arena, roles, cr3)
    }

    /** `Mapper::new`, on boot tables whose user half maps nothing (the state once the boot identity map has
        been dropped). */
    constructor (arena: Arena, allocator: PageAllocator, ram: PhysicalMemory, ghost roles: seq<Role>)
      requires Linked(arena, roles)
      requires forall c: nat, v: Virt | IsSpace(arena, roles, c) && v.User() :: Translate(arena, c, v) == NotMapped
      ensures Sound() && pages == map[]
      ensures this.arena == arena && this.allocator == allocator && this.roles == roles && this.ram == ram
    {
      this.ram := ram;
      this.arena := arena;
      this.pages := map[];
      this.allocator := allocator;
      this.roles := roles;
    }

    // ---- tables ----------------------------------------------------------

    /** `new_table`: bump allocation from memory that is zero past `next`. */
    method NewTable(ghost role: Role) returns (t: nat)
      modifies this`arena, this`roles
      ensures t == |old(arena).tables| && arena == old(arena).Extend() && roles == old(roles) + [role]
    {
      t := |arena.tables|;
      arena := arena.Extend();
      roles := roles + [role];
    }

    /** `walk_or_create_table`, for a table at `depth` that lies on the way from `root` to `v`. */
    method WalkOrCreateTable(ghost root: nat, t: nat, depth: nat, v: Virt) returns (u: nat)
      requires Linked(arena, roles) && IsRoot(roles, root)
      requires depth <= 2 && Reach(arena, root, v, depth) == t
      requires !(depth > 0 && arena.At(t, v.Slot(depth)).flags.present && arena.At(t, v.Slot(depth)).flags.ps)
      modifies this`arena, this`roles
      ensures Linked(arena, roles) && Grown(old(arena), old(roles), arena, roles)
      ensures Reach(arena, root, v, depth + 1) == u && PathsGrow(old(arena), old(roles), arena, root, v)
      ensures FlagsAdded(old(arena), old(roles), arena, root, v, depth, depth + 1)
      ensures forall r: nat, w: Virt | IsRoot(old(roles), r) :: Walk(arena, r, 0, w) == Walk(old(arena), r, 0, w)
    {
      ghost var a := arena;
      ReachOnRoles(arena, roles, root, v, depth);
      var i := v.Slot(depth);
      var e := arena.At(t, i);
      assert TableLinked(arena, roles, t) && EntryLinked(arena, roles, roles[t], i, e);
      if e.flags.present {
        u := arena.TableOf(e.page);
        FlagsAsTheyWere(arena, roles, root, v, depth);
      } else {
        ghost var role := roles[t].Child(i);
        u := NewTable(role);
        ghost var ptr := e.SetAddr(a.base + |a.tables|).SetFlags(FlagWord(PRESENT_RW, false));
        arena := arena.Set(t, i, arena.At(t, i).SetAddr(arena.base + u).SetFlags(FlagWord(PRESENT_RW, false)));
        assert arena == a.Set(t, i, ptr).Extend();
        LinkedAfterLink(a, old(roles), t, i, ptr);
        forall r: nat, w: Virt | IsRoot(old(roles), r)
          ensures Walk(arena, r, 0, w) == Walk(a, r, 0, w)
        {
          WalkAfterLink(a, old(roles), t, i, ptr, r, w, 0);
        }
        ReachKept(a, old(roles), arena, root, v, depth);
        PathsAfterLink(a, old(roles), t, i, ptr, root, v);
        FlagsAfterPointer(a, old(roles), t, i, ptr, root, v);
      }
    }

    /** The three calls of `walk_or_create_table` in `map`. */
    method CreatePath(cr3: nat, virt: Virt) returns (pt: nat)
      requires Linked(arena, roles) && Space(cr3)
      requires Translate(arena, cr3, virt).Mapped? ==> Translate(arena, cr3, virt).depth == 3
      modifies this`arena, this`roles
      ensures Linked(arena, roles) && Grown(old(arena), old(roles), arena, roles)
      ensures Reach(arena, arena.TableOf(cr3), virt, 3) == pt
      ensures PathsGrow(old(arena), old(roles), arena, arena.TableOf(cr3), virt)
      ensures FlagsAdded(old(arena), old(roles), arena, arena.TableOf(cr3), virt, 0, 3)
      ensures forall r: nat, w: Virt | IsRoot(old(roles), r) :: Walk(arena, r, 0, w) == Walk(old(arena), r, 0, w)
    {
      hide PathsGrow, FlagsAdded, TableLinked;
      var root := arena.TableOf(cr3);
      var pdpt := WalkOrCreateTable(root, root, 0, virt);
      ghost var a1, roles1 := arena, roles;
      ReachWalk(arena, root, virt, 1);
      var pd := WalkOrCreateTable(root, pdpt, 1, virt);
      ghost var a2, roles2 := arena, roles;
      ReachWalk(arena, root, virt, 2);
      pt := WalkOrCreateTable(root, pd, 2, virt);
      GrownTrans(old(arena), old(roles), a1, roles1, a2, roles2);
      GrownTrans(old(arena), old(roles), a2, roles2, arena, roles);
      PathsGrowTrans(old(arena), old(roles), a1, roles1, a2, root, virt);
      FlagsAddedTrans(old(arena), old(roles), a1, roles1, a2, root, virt, 0, 1, 2);
      FlagsAddedTrans(old(arena), old(roles), a2, roles2, arena, root, virt, 0, 2, 3);
      PathsGrowTrans(old(arena), old(roles), a2, roles2, arena, root, virt);
    }

    /** The table part of `map`: create the tables on the path, then store the leaf. */
    method InstallPage(cr3: nat, page: nat, virt: Virt)
      requires Linked(arena, roles) && Space(cr3) && virt.Aligned()
      requires Translate(arena, cr3, virt).Mapped? ==> Translate(arena, cr3, virt).depth == 3
      modifies this`arena, this`roles
      ensures Linked(arena, roles) && Grown(old(arena), old(roles), arena, roles)
      ensures TablesGrow(old(State()).view, State().view, cr3, virt)
      ensures virt.User() ==> UserWrite(old(State()).view, State().view, cr3, virt, Mapped(page, true, 3))
      ensures !virt.User() ==> KernelWrite(old(State()).view, State().view, cr3, virt, Mapped(page, true, 3))
      ensures FlagsMarked(old(State()).view, State().view, cr3, virt)
    {
      hide FlagsAdded, FlagsMarked, TableLinked, Last, Walk;
      var pt := CreatePath(cr3, virt);
      ghost var a := arena;
      ReachOnRoles(arena, roles, arena.TableOf(cr3), virt, 3);
      var e := arena.At(pt, virt.i1).SetAddr(page).SetFlags(FlagWord(PRESENT_RW, false));
      arena := arena.Set(pt, virt.i1, e);
      LinkedAfterStore(a, roles, pt, virt.i1, e);
      StoreView(a, roles, cr3, virt, e);
      SameView(old(arena), old(roles), a, roles, cr3, virt);
      LeafMarked(a, roles, arena.TableOf(cr3), virt, e);
      FlagsAddedTrans(old(arena), old(roles), a, roles, arena, arena.TableOf(cr3), virt, 0, 3, 4);
      MarkedView(old(arena), old(roles), arena, roles, cr3, virt);
    }

    /** Replaces the leaf of a mapped 4 KiB page. */
    method StoreLeaf(cr3: nat, virt: Virt, e: Entry)
      requires Linked(arena, roles) && Space(cr3) && virt.Aligned()
      requires Translate(arena, cr3, virt).Mapped? && Translate(arena, cr3, virt).depth == 3
      modifies this`arena
      ensures Linked(arena, roles) && Grown(old(arena), roles, arena, roles)
      ensures TablesSame(old(State()).view, State().view)
      ensures
        var leaf := Walk(old(arena), old(arena).TableOf(cr3), 0, virt);
        leaf.Leaf? && leaf.table < |old(arena).tables| && arena == old(arena).Set(leaf.table, leaf.idx, e)
      ensures virt.User() ==> UserWrite(old(State()).view, State().view, cr3, virt, LeafOf(e))
      ensures !virt.User() ==> KernelWrite(old(State()).view, State().view, cr3, virt, LeafOf(e))
      ensures FlagsWrite(old(State()).view, State().view, cr3, virt, e.flags)
    {
      hide FlagsWrite;
      ghost var a := arena;
      var leaf := Walk(arena, arena.TableOf(cr3), 0, virt);
      MappedReach(arena, roles, arena.TableOf(cr3), virt, 0);
      ReachOnRoles(arena, roles, arena.TableOf(cr3), virt, 3);
      arena := arena.Set(leaf.table, leaf.idx, e);
      LinkedAfterStore(a, roles, leaf.table, leaf.idx, e);
      StoreView(a, roles, cr3, virt, e);
      StoreFlags(a, roles, cr3, virt, e);
    }

    /** `set_flags(RW_FLAG, rw)` on the leaf of a mapped user page. */
    method SetLeafRw(cr3: nat, virt: Virt, rw: bool)
      requires Linked(arena, roles) && Space(cr3) && virt.User() && virt.Aligned()
      requires Translate(arena, cr3, virt).Mapped? && Translate(arena, cr3, virt).depth == 3
      modifies this`arena
      ensures Linked(arena, roles) && Grown(old(arena), roles, arena, roles)
      ensures TablesSame(old(State()).view, State().view)
      ensures UserWrite(old(State()).view, State().view, cr3, virt,
                        Mapped(Translate(old(arena), cr3, virt).page, rw, 3))
      ensures FlagsRw(old(State()).view, State().view, cr3, virt, rw)
      ensures AbsentKept(old(arena), arena)
    {
      var leaf := Walk(arena, arena.TableOf(cr3), 0, virt);
      assert leaf.entry.flags.present by {
        assert TableLinked(arena, roles, arena.TableOf(cr3));
        WalkOnRoles(arena, roles, arena.TableOf(cr3), arena.TableOf(cr3), 0, virt);
      }
      LeafFlags(arena, roles, cr3, virt);
      StoreLeaf(cr3, virt, leaf.entry.SetRw(rw));
      RwFlags(old(arena), roles, State().view, cr3, virt, rw);
    }

    // ---- map and unmap ---------------------------------------------------

    /** `map`. It keeps the books of the user half unless it maps over a page or maps a frame at a second address. */
    method Map(cr3: nat, phys: nat, virt: Virt) returns (r: Outcome)
      requires Sound() && Space(cr3)
      requires !virt.User() && virt.Aligned() ==> NoLargePage(State(), cr3, virt)
      modifies this`arena, this`roles, this`pages
      ensures phys % 4096 != 0 ==> r == Err(MisalignedPhys(phys))
      ensures phys % 4096 == 0 && !virt.Aligned() ==> r == Err(MisalignedVirt(virt))
      ensures phys % 4096 == 0 && virt.Aligned() ==>
                r == if virt.User() && !AliasesMap(old(State()), cr3, virt, phys / 4096) then Panic else Ok
      ensures r.Err? ==> arena == old(arena) && roles == old(roles) && pages == old(pages)
      ensures r.Ok? ==> Linked(arena, roles) && Grown(old(arena), old(roles), arena, roles)
      ensures r.Ok? ==> (Sound() <==> virt.User() ==> MayMap(old(State()), cr3, virt, phys / 4096))
      ensures r.Ok? ==>
                if !virt.User() then KernelStep(old(State()), State(), cr3, virt, Mapped(phys / 4096, true, 3))
                else if phys / 4096 in old(pages) then ShareStep(old(State()), State(), cr3, virt, phys / 4096)
                else MapStep(old(State()), State(), cr3, virt, phys / 4096)
    {
      if phys % 4096 != 0 {
        return Err(MisalignedPhys(phys));
      }
      if !virt.Aligned() {
        return Err(MisalignedVirt(virt));
      }
      var page := phys / 4096;
      r := Ok;
      if !virt.User() {
        MapKernel(cr3, page, virt);
      } else if page in pages {
        var ok := MapShared(cr3, page, virt);
        r := if ok then Ok else Panic;
      } else {
        MapUnshared(cr3, page, virt);
      }
    }

    /** `map` in the kernel half. */
    method MapKernel(cr3: nat, page: nat, virt: Virt)
      requires Sound() && Space(cr3) && !virt.User() && virt.Aligned() && NoLargePage(State(), cr3, virt)
      modifies this`arena, this`roles
      ensures Sound() && Grown(old(arena), old(roles), arena, roles)
      ensures KernelStep(old(State()), State(), cr3, virt, Mapped(page, true, 3))
    {
      InstallPage(cr3, page, virt);
      KernelKeepsBooks(old(State()), State(), cr3, virt, Mapped(page, true, 3));
    }

    /** `map` of a user frame that nobody maps yet. */
    method MapUnshared(cr3: nat, page: nat, virt: Virt)
      requires Sound() && Space(cr3) && virt.User() && virt.Aligned() && page !in pages
      modifies this`arena, this`roles, this`pages
      ensures Linked(arena, roles) && Grown(old(arena), old(roles), arena, roles)
      ensures Sound() <==> MayMap(old(State()), cr3, virt, page)
      ensures MapStep(old(State()), State(), cr3, virt, page)
    {
      UserDepth(arena, roles, cr3, virt);
      InstallPage(cr3, page, virt);
      pages := pages[page := Fresh(Alias(cr3, virt))];
      MapKeepsBooks(old(State()), State(), cr3, virt, page);
    }

    /** `map` of a user frame that is mapped already: the spaces of all its aliases lose write permission. */
    method MapShared(cr3: nat, page: nat, virt: Virt) returns (ok: bool)
      requires Sound() && Space(cr3) && virt.User() && virt.Aligned() && page in pages
      modifies this`arena, this`roles, this`pages
      ensures ok <==> AliasesMap(old(State()), cr3, virt, page)
      ensures ok ==> Linked(arena, roles) && Grown(old(arena), old(roles), arena, roles)
      ensures ok ==> (Sound() <==> MayMap(old(State()), cr3, virt, page))
      ensures ok ==> ShareStep(old(State()), State(), cr3, virt, page)
    {
      hide Booked, Grown, Protected, UserWrite, TablesGrow, TablesSame, ShareStep, Translate, ViewOf;
      hide FlagsMarked, FlagsProtected, MayMap, AliasesMap, TableLinked;
      ViewAt(arena, roles, cr3, virt);
      UserDepth(arena, roles, cr3, virt);
      InstallPage(cr3, page, virt);
      ghost var m, roles' := arena, roles;
      pages := pages[page := Join(pages[page], Alias(cr3, virt))];
      InstalledAliases(old(State()), ViewOf(m, roles'), cr3, virt, page);
      ok := ProtectAliases(pages[page].aliases, virt);
      if ok {
        GrownTrans(old(arena), old(roles), m, roles', arena, roles);
        InstalledShared(old(State()), ViewOf(m, roles'), State(), cr3, virt, page);
        ShareKeepsBooks(old(State()), State(), cr3, virt, page);
      }
    }

    /** The loop of `map` that takes write permission from every alias: it walks the caller's address, not the
        address of the alias, and panics if that is not mapped. */
    method ProtectAliases(aliases: set<Alias>, virt: Virt) returns (ok: bool)
      requires Linked(arena, roles) && virt.User() && virt.Aligned()
      requires forall x | x in aliases :: x.cr3 in State().view.spaces
      modifies this`arena
      ensures ok <==> forall x | x in aliases :: old(State()).view.at(x.cr3, virt).Mapped?
      ensures ok ==> Linked(arena, roles) && Grown(old(arena), roles, arena, roles)
      ensures ok ==> Protected(old(State()).view, State().view, SpacesOf(aliases), virt)
      ensures ok ==> TablesSame(old(State()).view, State().view)
      ensures ok ==> FlagsProtected(old(State()).view, State().view, SpacesOf(aliases), virt)
    {
      var todo := aliases;
      while todo != {}
        invariant todo <= aliases
        invariant Linked(arena, roles) && Grown(old(arena), roles, arena, roles)
        invariant Protected(old(State()).view, State().view, SpacesOf(aliases - todo), virt)
        invariant TablesSame(old(State()).view, State().view)
        invariant FlagsProtected(old(State()).view, State().view, SpacesOf(aliases - todo), virt)
        invariant forall x | x in aliases - todo :: old(State()).view.at(x.cr3, virt).Mapped?
      {
        var x :| x in todo;
        ghost var m := arena;
        if !Translate(arena, x.cr3, virt).Mapped? {
          return false;
        }
        UserDepth(arena, roles, x.cr3, virt);
        SetLeafRw(x.cr3, virt, false);
        ProtectOne(old(State()).view, ViewOf(m, roles), State().view, aliases - todo, x, virt);
        todo := todo - {x};
        assert aliases - todo == aliases - (todo + {x}) + {x};
        GrownTrans(old(arena), roles, m, roles, arena, roles);
      }
      ok := true;
    }

    /** `unmap` of a 4 KiB page. */
    method Unmap(cr3: nat, virt: Virt) returns (r: Outcome)
      requires Sound() && Space(cr3) && NoLargePage(State(), cr3, virt)
      modifies this`arena, this`pages
      ensures r == if !old(State()).view.at(cr3, virt).Mapped? then Panic
                   else if virt.Aligned() then Ok else Err(MisalignedVirt(virt))
      ensures !r.Ok? ==> arena == old(arena) && pages == old(pages)
      ensures r.Ok? ==> Sound() && Grown(old(arena), roles, arena, roles)
      ensures r.Ok? ==>
                if virt.User() then UnmapStep(old(State()), State(), cr3, virt)
                else KernelStep(old(State()), State(), cr3, virt, NotMapped)
      ensures r.Ok? ==> TablesSame(old(State()).view, State().view)
      ensures r.Ok? ==> Zeroed(Walk(old(arena), old(arena).TableOf(cr3), 0, virt), arena)
    {
      if !Translate(arena, cr3, virt).Mapped? {
        return Panic;
      }
      if !virt.Aligned() {
        return Err(MisalignedVirt(virt));
      }
      if virt.User() {
        UnmapUser(cr3, virt);
      } else {
        StoreLeaf(cr3, virt, ZERO_ENTRY);
        KernelKeepsBooks(old(State()), State(), cr3, virt, NotMapped);
      }
      r := Ok;
    }

    /** `unmap` for the user half: a sole surviving alias gets its write permission back. */
    method UnmapUser(cr3: nat, virt: Virt)
      requires Sound() && Space(cr3) && virt.User() && virt.Aligned()
      requires State().view.at(cr3, virt).Mapped?
      modifies this`arena, this`pages
      ensures Sound() && Grown(old(arena), roles, arena, roles)
      ensures UnmapStep(old(State()), State(), cr3, virt)
      ensures Zeroed(Walk(old(arena), old(arena).TableOf(cr3), 0, virt), arena)
    {
      hide Booked, Grown, UserWrite, Dropped, Translate, ViewOf, TableLinked, TablesSame, FlagsWrite, FlagsDropped;
      ghost var s := State();
      ViewAt(arena, roles, cr3, virt);
      UserDepth(arena, roles, cr3, virt);
      LeafRecord(s, cr3, virt);
      var page := Translate(arena, cr3, virt).page;
      StoreLeaf(cr3, virt, ZERO_ENTRY);
      pages := Without(pages, page, Alias(cr3, virt));
      if page in pages && pages[page].refs == 1 {
        ghost var m := arena;
        RestoreSurvivor(s, cr3, virt, page);
        GrownTrans(old(arena), roles, m, roles, arena, roles);
      } else {
        DroppedAlone(s, State().view, cr3, virt, page);
      }
      UnmapKeepsBooks(s, State(), cr3, virt);
    }

    /** The end of `unmap`, when one alias is left. */
    method RestoreSurvivor(ghost s: State, ghost cr3: nat, virt: Virt, page: nat)
      requires Linked(arena, roles) && Booked(s)
      requires virt.User() && virt.Aligned() && page in s.pages && Alias(cr3, virt) in s.pages[page].aliases
      requires s.pages[page].refs == 2
      requires page in pages && pages[page] == Leave(s.pages[page], Alias(cr3, virt))
      requires UserWrite(s.view, State().view, cr3, virt, NotMapped)
      requires FlagsWrite(s.view, State().view, cr3, virt, NO_FLAGS) && TablesSame(s.view, State().view)
      modifies this`arena
      ensures Linked(arena, roles) && Grown(old(arena), roles, arena, roles)
      ensures TablesSame(s.view, State().view)
      ensures Dropped(s, State().view, cr3, virt, page) && FlagsDropped(s, State().view, cr3, virt, page)
      ensures AbsentKept(old(arena), arena)
    {
      // "Aliasing cr3 must have been in aliasing list", "There must be exactly one aliasing paging structure"
      assert |pages[page].aliases| == 1;
      var y :| y in pages[page].aliases;
      // "virt_addr must be mapped"
      assert AliasTrue(s.view, page, y);
      UserDepth(arena, roles, y.cr3, virt);
      SetLeafRw(y.cr3, virt, true);
      SoleAlias(pages[page].aliases, y);
      DroppedSurvivor(s, ViewOf(old(arena), roles), State().view, cr3, virt, page, y);
    }

    // ---- fork ------------------------------------------------------------

    /** `fork`. If no pointer is diverted, it is the fork of the address space. */
    method Fork(cr3: nat) returns (child: nat)
      requires Inv() && Space(cr3)
      modifies this`arena, this`roles, this`pages
      ensures child == old(arena).base + |old(arena).tables|
      ensures Finished(Source(old(arena), old(roles), old(pages), old(arena).TableOf(cr3), child), arena, roles, pages)
      ensures ForkAligned(old(arena), old(arena).TableOf(cr3), |old(arena).tables|) ==>
                && Inv() && old(roles) <= roles && PointersKept(old(arena), old(roles), arena)
                && ForkStep(old(State()), State(), cr3, child)
    {
      hide Booked, Linked, Visited, ForkOf, ForkStep, ForkAligned, PointersKept;
      ghost var g;
      child, g := CloneSpace(cr3);
      if ForkAligned(g.a, g.root, |g.a.tables|) {
        ForkKeepsLinks(g, arena, roles, pages);
        ForkIsStep(g, arena, roles, pages);
        ForkedBooks(g.State(), State(), g.Cr3(), child);
      }
    }

    /** `fork`, as written: the new root shares the kernel half, and its user half is a clone of the source
        tables; the leaves of the source become read-only and their frames gain an alias. */
    method CloneSpace(cr3: nat) returns (child: nat, ghost g: Source)
      requires Sound() && Space(cr3)
      modifies this`arena, this`roles, this`pages
      ensures g == Source(old(arena), old(roles), old(pages), old(arena).TableOf(cr3), child) && g.Good()
      ensures ForkOf(g.a, arena, roles, g.root, |g.a.tables|)
      ensures |roles| == |g.a.tables| + 1 + Prefix(g.a, g.root, 0, USER_SLOTS) && g.roles <= roles
      ensures Visited(g, arena, pages, CursorAt(ORIGIN, 0, USER_SLOTS))
    {
      hide Visited, CloneOf, TableLinked, Booked, Through;
      var root := arena.TableOf(cr3);
      var d := NewTable(Role(|arena.tables|, 0, 0, 0, 0));
      child := arena.base + d;
      g := Source(old(arena), old(roles), pages, root, child);
      ShareKernelHalf(root, d, g);
      var i := 0;
      while i < USER_SLOTS
        invariant i <= USER_SLOTS
        invariant ForkPrefix(g.a, arena, roles, root, d, i)
        invariant |roles| == d + 1 + Prefix(g.a, root, 0, i) && g.roles <= roles
        invariant Visited(g, arena, pages, CursorAt(ORIGIN, 0, i)) && g.OnPath(root, 0, ORIGIN)
      {
        var e := arena.At(root, i);
        SourceSlot(g, arena, pages, root, 0, ORIGIN, i);
        if e.flags.present {
          CloneRootPointer(root, d, child, i, g);
        } else {
          SkipRootSlot(g, arena, roles, pages, d, i);
        }
        i := i + 1;
      }
      ForkDone(g.a, arena, roles, root, d);
    }

    /** The first loop of `fork`. */
    method ShareKernelHalf(root: nat, d: nat, ghost g: Source)
      requires g.Good() && root == g.root && d == |g.a.tables| && arena == g.a.Extend()
      requires roles == g.roles + [Role(d, 0, 0, 0, 0)] && pages == g.pages
      modifies this`arena
      ensures ForkPrefix(g.a, arena, roles, root, d, 0)
      ensures Visited(g, arena, pages, CursorAt(ORIGIN, 0, 0)) && g.OnPath(root, 0, ORIGIN)
    {
      hide Visited, Booked, TableLinked;
      var i := USER_SLOTS;
      while i < ENTRIES
        invariant USER_SLOTS <= i <= ENTRIES
        invariant arena.base == g.a.base && |arena.tables| == d + 1
        invariant forall t: nat | t < d :: arena.tables[t] == g.a.tables[t]
        invariant forall j: Index | j < USER_SLOTS || i <= j :: arena.tables[d][j] == ZERO_ENTRY
        invariant forall j: Index | USER_SLOTS <= j < i :: RootEntryCloned(g.a, arena, root, d, j)
      {
        ghost var b := arena;
        var e := arena.At(root, i);
        if e.flags.present {
          arena := arena.Set(d, i, arena.At(d, i).SetAddr(e.page).SetFlags(e.GetFlags()));
        }
        forall j: Index | USER_SLOTS <= j < i
          ensures RootEntryCloned(g.a, arena, root, d, j)
        {
          RootEntryFrame(g.a, b, arena, root, d, j);
        }
        i := i + 1;
      }
      VisitNothing(g, arena);
    }

    /** One turn of the second loop of `fork`, for a present entry. */
    method CloneRootPointer(root: nat, d: nat, child: nat, i: Index, ghost g: Source)
      requires g.Good() && root == g.root && g.OnPath(root, 0, ORIGIN)
      requires d == |g.a.tables| && child == g.child && i < USER_SLOTS && g.a.At(root, i).flags.present
      requires ForkPrefix(g.a, arena, roles, root, d, i)
      requires |roles| == d + 1 + Prefix(g.a, root, 0, i)
      requires Visited(g, arena, pages, CursorAt(ORIGIN, 0, i))
      modifies this`arena, this`roles, this`pages
      ensures ForkPrefix(g.a, arena, roles, root, d, i + 1)
      ensures |roles| == d + 1 + Prefix(g.a, root, 0, i + 1) && old(roles) <= roles
      ensures Visited(g, arena, pages, CursorAt(ORIGIN, 0, i + 1))
    {
      hide Visited, CloneOf, TableLinked, Booked, Through, ForkPrefix, Prefix, Size;
      ghost var b := arena;
      ForkSlot(g.a, b, roles, root, d, i);
      VisitChild(g, arena, pages, root, 0, ORIGIN, i);
      PrefixStep(g.a, root, 0, i);
      var e := arena.At(root, i);
      var u := NewTable(roles[d].Child(i));
      assert u == Spot(g.a, root, d, 0, i);
      arena := arena.Set(d, i, arena.At(d, i).SetFlags(e.GetFlags()));
      arena := arena.Set(d, i, arena.At(d, i).SetAddr(arena.base + u));
      assert arena.At(d, i) == RootPointer(e, arena.base + u);
      VisitFrame(g, b, arena, pages, CursorAt(ORIGIN, 0, i));
      RecursivelyClone(arena.TableOf(e.page), u, child, 1, Descend(ORIGIN, 0, i), g, roles[d].Child(i));
      VisitWrap(g, arena, pages, ORIGIN, 0, i);
      assert RootEntryCloned(g.a, arena, root, d, i) && ChildCloned(g.a, arena, roles, root, d, 0, roles[d], i);
      ForkPrefixStep(g.a, b, old(roles), arena, roles, root, d, i);
    }

    /** `recursively_clone` (depths 1, 2, 3 are its levels 3, 2, 1): clones the table `src` of the source tree
        `g`, which lies on the way to `virt`, into the empty last table `dst`. */
    method RecursivelyClone(src: nat, dst: nat, child: nat, depth: nat, virt: Virt, ghost g: Source, ghost r: Role)
      requires g.Good() && 1 <= depth <= 3 && g.OnPath(src, depth, virt) && child == g.child && r.depth == depth
      requires |g.a.tables| <= dst && |arena.tables| == |roles| == dst + 1 && roles[dst] == r
      requires arena.tables[dst] == ZeroTable()
      requires Visited(g, arena, pages, CursorAt(virt, depth, 0))
      modifies this`arena, this`roles, this`pages
      ensures |roles| == dst + Size(g.a, src, depth) && old(roles) <= roles
      ensures SameTables(old(arena), old(roles), arena, roles, |g.a.tables|, dst)
      ensures CloneOf(g.a, arena, roles, src, dst, depth, r)
      ensures Visited(g, arena, pages, CursorAt(virt, depth, ENTRIES))
      decreases 3 - depth, 1
    {
      hide Visited, ClonePrefix, CloneOf, TableLinked, Booked, Through, Prefix, Size;
      CloneStart(g.a, arena, roles, src, dst, depth, r);
      var i := 0;
      while i < ENTRIES
        invariant i <= ENTRIES
        invariant ClonePrefix(g.a, arena, roles, src, dst, depth, r, i)
        invariant |roles| == dst + 1 + Room(g.a, src, depth, i) && old(roles) <= roles
        invariant SameTables(old(arena), old(roles), arena, roles, |g.a.tables|, dst)
        invariant Visited(g, arena, pages, CursorAt(virt, depth, i))
      {
        var e := arena.At(src, i);
        SourceSlot(g, arena, pages, src, depth, virt, i);
        if depth == 3 || e.flags.ps {
          if e.flags.present {
            CloneLeaf(src, dst, child, virt, i, g, r);
          } else {
            SkipSlot(g, arena, roles, pages, src, dst, depth, virt, i, r);
          }
        } else {
          if e.flags.present {
            ClonePointer(src, dst, child, depth, virt, i, g, r);
          } else {
            SkipSlot(g, arena, roles, pages, src, dst, depth, virt, i, r);
          }
        }
        i := i + 1;
      }
      CloneDone(g.a, arena, roles, src, dst, depth, r);
    }

    method CloneLeaf(src: nat, dst: nat, child: nat, virt: Virt, i: Index, ghost g: Source, ghost r: Role)
      requires g.Good() && g.OnPath(src, 3, virt) && child == g.child && r.depth == 3
      requires |g.a.tables| <= dst && |roles| == dst + 1 && g.a.At(src, i).flags.present
      requires ClonePrefix(g.a, arena, roles, src, dst, 3, r, i)
      requires Visited(g, arena, pages, CursorAt(virt, 3, i))
      modifies this`arena, this`pages
      ensures SameTables(old(arena), roles, arena, roles, |g.a.tables|, dst)
      ensures ClonePrefix(g.a, arena, roles, src, dst, 3, r, i + 1)
      ensures Visited(g, arena, pages, CursorAt(virt, 3, i + 1))
    {
      hide Visited, CloneOf, TableLinked, Booked, Through, ChildCloned;
      ghost var b := arena;
      assert b.At(dst, i) == ZERO_ENTRY;
      var e := arena.At(src, i);
      SourceSlot(g, arena, pages, src, 3, virt, i);
      arena := arena.Set(dst, i, arena.At(dst, i).SetAddr(e.page).SetFlags(e.GetFlags()).SetRw(false));
      VisitFrame(g, b, arena, pages, CursorAt(virt, 3, i));
      VisitLeaf(g, arena, pages, src, virt, i);
      arena := arena.Set(src, i, arena.At(src, i).SetRw(false));
      // "MappedPage for physical page should have been created when getting mapped"
      pages := pages[e.page := Join(pages[e.page], Alias(child, Descend(virt, 3, i)))];
      LeafHasNoChild(g.a, arena, roles, src, dst, r, i);
      ClonePrefixStep(g.a, b, roles, arena, roles, src, dst, 3, r, i);
    }

    method ClonePointer(src: nat, dst: nat, child: nat, depth: nat, virt: Virt, i: Index, ghost g: Source,
                        ghost r: Role)
      requires g.Good() && 1 <= depth <= 2 && g.OnPath(src, depth, virt) && child == g.child && r.depth == depth
      requires |g.a.tables| <= dst && |roles| == dst + 1 + Room(g.a, src, depth, i) && g.a.At(src, i).flags.present
      requires ClonePrefix(g.a, arena, roles, src, dst, depth, r, i)
      requires Visited(g, arena, pages, CursorAt(virt, depth, i))
      modifies this`arena, this`roles, this`pages
      ensures |roles| == dst + 1 + Room(g.a, src, depth, i + 1) && old(roles) <= roles
      ensures SameTables(old(arena), old(roles), arena, roles, |g.a.tables|, dst)
      ensures ClonePrefix(g.a, arena, roles, src, dst, depth, r, i + 1)
      ensures Visited(g, arena, pages, CursorAt(virt, depth, i + 1))
      decreases 3 - depth, 0
    {
      hide Visited, CloneOf, TableLinked, Booked, Through, Prefix, Size;
      ghost var b := arena;
      assert b.At(dst, i) == ZERO_ENTRY;
      var e := arena.At(src, i);
      VisitChild(g, arena, pages, src, depth, virt, i);
      PrefixStep(g.a, src, depth, i);
      var u := NewTable(r.Child(i));
      arena := arena.Set(dst, i, arena.At(dst, i).SetAddr(arena.base + u).SetFlags(e.GetFlags()).SetRw(true));
      VisitFrame(g, b, arena, pages, CursorAt(virt, depth, i));
      assert arena.At(dst, i) == ClonedPointer(e, arena.base + u);
      RecursivelyClone(arena.TableOf(e.page), u, child, depth + 1, Descend(virt, depth, i), g, r.Child(i));
      assert EntryCloned(g.a, arena, src, dst, depth, i);
      ClonePrefixStep(g.a, b, old(roles), arena, roles, src, dst, depth, r, i);
      VisitWrap(g, arena, pages, virt, depth, i);
    }

    // ---- page allocation and copy-on-write -------------------------------

    /** Takes one page off the free list; it belongs to nobody. */
    method TakePage() returns (r: AllocOutcome)
      requires Inv()
      modifies allocator
      ensures Inv() && (r.Block? <==> !PoolEmpty(old(allocator.freeLists)))
      ensures allocator.freeLists == AfterWritten(old(allocator.freeLists), PAGE_ORDER)
      ensures r.Block? ==> r.addr % 4096 == 0 && Own(r.addr / 4096) && r.addr / 4096 == Taken(old(allocator.freeLists))
    {
      r := allocator.Allocate(PAGE_ORDER);
    }

    /** A page taken from the allocator and not mapped in a user half. */
    ghost predicate Own(page: nat)
      reads this, allocator
    {
      page !in pages && page in ram.frames && NotPooled(allocator.freeLists, page)
    }

    /** `alloc_page_at`. On a misaligned address the page taken from the allocator is lost. */
    method AllocPageAt(cr3: nat, virt: Virt) returns (r: Outcome)
      requires Inv() && Space(cr3)
      requires !virt.User() && virt.Aligned() ==> NoLargePage(State(), cr3, virt)
      modifies this`arena, this`roles, this`pages, allocator
      ensures r == if PoolEmpty(old(allocator.freeLists)) then OutOfMemory
                   else if virt.Aligned() then Ok else Err(MisalignedVirt(virt))
      ensures Linked(arena, roles) && Grown(old(arena), old(roles), arena, roles)
      ensures Inv() <==> !(r.Ok? && virt.User() && old(State()).view.at(cr3, virt).Mapped?)
      ensures allocator.freeLists == AfterWritten(old(allocator.freeLists), PAGE_ORDER)
      ensures !r.Ok? ==> arena == old(arena) && roles == old(roles) && pages == old(pages)
      ensures r.Ok? ==> FillStep(old(State()), State(), cr3, virt, Taken(old(allocator.freeLists)))
    {
      hide Booked, Grown, TableLinked, ViewOf, Translate, AfterWritten, UserWrite, KernelWrite, TablesGrow, ShareStep;
      GrownRefl(arena, roles);
      ViewAt(arena, roles, cr3, virt);
      var block := TakePage();
      if !block.Block? {
        return OutOfMemory;
      }
      r := Map(cr3, block.addr, virt);
      if r.Ok? {
        FillFrom(old(State()), State(), cr3, virt, block.addr / 4096);
      }
      if r.Ok? && virt.User() {
        ghost var mapped := old(pages).Keys;
        FramesAfterMap(allocator.freeLists, mapped, mapped, pages.Keys, ram.frames, block.addr / 4096);
      }
    }

    /** `cow_tmp_map`: a page of its own at the scratch address. */
    method CowTmpMap(cr3: nat, scratch: Virt) returns (r: AllocOutcome)
      requires Inv() && Space(cr3) && !scratch.User() && scratch.Aligned() && NoLargePage(State(), cr3, scratch)
      modifies this`arena, this`roles, this`pages, allocator
      ensures Inv() && Grown(old(arena), old(roles), arena, roles) && Space(cr3)
      ensures r.Block? <==> !PoolEmpty(old(allocator.freeLists))
      ensures allocator.freeLists == AfterWritten(old(allocator.freeLists), PAGE_ORDER)
      ensures r.Block? ==>
                && r.addr % 4096 == 0 && Own(r.addr / 4096) && r.addr / 4096 == Taken(old(allocator.freeLists))
                && KernelStep(old(State()), State(), cr3, scratch, Mapped(r.addr / 4096, true, 3))
      ensures !r.Block? ==> arena == old(arena) && roles == old(roles) && pages == old(pages)
    {
      hide Booked, TableLinked, Translate, AfterWritten, UserWrite, KernelWrite, TablesGrow, ShareStep, Grown;
      GrownRefl(arena, roles);
      ViewAt(arena, roles, cr3, scratch);
      r := TakePage();
      if r.Block? {
        var ok := Map(cr3, r.addr, scratch);
        GrownSpace(old(arena), old(roles), arena, roles, cr3);
      }
    }

    /** `cow_copy`: 4096 bytes from `virt` to the page behind `scratch`. What a misaligned range holds is `torn`. */
    method CowCopy(cr3: nat, virt: Virt, scratch: Virt, torn: Bytes)
      requires Translate(arena, cr3, virt).Mapped? && Translate(arena, cr3, scratch).Mapped?
      modifies ram
      ensures ram.bytes == old(ram.bytes)[Translate(arena, cr3, scratch).page :=
                          if virt.Aligned() then FrameBytes(old(ram.bytes), Translate(arena, cr3, virt).page) else torn]
    {
      var from, to := Translate(arena, cr3, virt).page, Translate(arena, cr3, scratch).page;
      ram.bytes := ram.bytes[to := if virt.Aligned() then FrameBytes(ram.bytes, from) else torn];
    }

    /** `cow`: gives the faulting space a private, writable copy of a shared page. On a misaligned address the
        user half is left as it was, and the page taken stays behind at the scratch address. */
    method Cow(cr3: nat, virt: Virt, scratch: Virt, torn: Bytes) returns (r: Outcome)
      requires Inv() && Space(cr3) && virt.User() && !scratch.User() && scratch.Aligned()
      requires NoLargePage(State(), cr3, scratch)
      modifies this`arena, this`roles, this`pages, ram, allocator
      ensures Inv() && Grown(old(arena), old(roles), arena, roles)
      ensures r == if !MayCow(old(State()), cr3, virt) then Panic
                   else if PoolEmpty(old(allocator.freeLists)) then OutOfMemory
                   else if virt.Aligned() then Ok else Err(MisalignedVirt(virt))
      ensures allocator.freeLists ==
                if r.Panic? then old(allocator.freeLists) else AfterWritten(old(allocator.freeLists), PAGE_ORDER)
      ensures r.Panic? || r.OutOfMemory? ==>
                arena == old(arena) && roles == old(roles) && pages == old(pages) && ram.bytes == old(ram.bytes)
      ensures r.Err? ==>
                var left := State().view.at(cr3, scratch);
                && left == Mapped(Taken(old(allocator.freeLists)), true, 3) && left.page !in pages
                && KernelStep(old(State()), State(), cr3, scratch, left)
                && ram.bytes == old(ram.bytes)[left.page := torn]
      ensures r.Ok? ==>
                var was, now := old(State()).view.at(cr3, virt), State().view.at(cr3, virt);
                && now == Mapped(Taken(old(allocator.freeLists)), true, 3) && now.page !in old(pages)
                && CowStep(old(State()), State(), cr3, virt, scratch, now.page)
                && ram.bytes == old(ram.bytes)[now.page := FrameBytes(old(ram.bytes), was.page)]
    {
      hide Booked, Grown, TableLinked, Translate, CowStep, KernelStep, FramesOk, AfterWritten;
      GrownRefl(arena, roles);
      ViewAt(arena, roles, cr3, virt);
      PageMapped(arena, roles, cr3, virt);
      var t := Translate(arena, cr3, virt);
      if !t.Mapped? {
        return Panic;
      }
      WritableIsSole(State(), cr3, virt.Page());
      // "Mapped page should be in mapped_pages"
      if pages[t.page].refs <= 1 {
        return Panic;
      }
      r := CowShared(cr3, virt, scratch, torn);
    }

    /** `cow`, after its checks. */
    method CowShared(cr3: nat, virt: Virt, scratch: Virt, torn: Bytes) returns (r: Outcome)
      requires Inv() && Space(cr3) && virt.User() && !scratch.User() && scratch.Aligned()
      requires MayCow(State(), cr3, virt) && NoLargePage(State(), cr3, scratch)
      modifies this`arena, this`roles, this`pages, ram, allocator
      ensures Inv() && Grown(old(arena), old(roles), arena, roles)
      ensures r == if PoolEmpty(old(allocator.freeLists)) then OutOfMemory
                   else if virt.Aligned() then Ok else Err(MisalignedVirt(virt))
      ensures allocator.freeLists == AfterWritten(old(allocator.freeLists), PAGE_ORDER)
      ensures r.OutOfMemory? ==>
                arena == old(arena) && roles == old(roles) && pages == old(pages) && ram.bytes == old(ram.bytes)
      ensures r.Err? ==>
                var left := State().view.at(cr3, scratch);
                && left == Mapped(Taken(old(allocator.freeLists)), true, 3) && left.page !in pages
                && KernelStep(old(State()), State(), cr3, scratch, left)
                && ram.bytes == old(ram.bytes)[left.page := torn]
      ensures r.Ok? ==>
                var was, now := old(State()).view.at(cr3, virt), State().view.at(cr3, virt);
                && now == Mapped(Taken(old(allocator.freeLists)), true, 3) && now.page !in old(pages)
                && CowStep(old(State()), State(), cr3, virt, scratch, now.page)
                && ram.bytes == old(ram.bytes)[now.page := FrameBytes(old(ram.bytes), was.page)]
    {
      hide Booked, Grown, TableLinked, Translate, CowStep, KernelStep, FramesOk, AfterWritten;
      ghost var s := State();
      PageMapped(arena, roles, cr3, virt);
      assert cr3 in s.view.spaces;
      var block := CowTmpMap(cr3, scratch);
      if !block.Block? {
        return OutOfMemory;
      }
      KernelFrame(s, State(), cr3, scratch, Mapped(block.addr / 4096, true, 3), virt.Page());
      PageMapped(arena, roles, cr3, virt);
      CowCopy(cr3, virt, scratch, torn);
      if virt.Aligned() {
        ghost var a1, roles1 := arena, roles;
        CowReplace(s, cr3, virt, scratch, block.addr / 4096);
        GrownTrans(old(arena), old(roles), a1, roles1, arena, roles);
        r := Ok;
      } else {
        UserDepth(arena, roles, cr3, virt);
        r := Unmap(cr3, virt);
      }
    }

    /** The end of `cow`: drop both mappings, then map the copy in place of the shared page. */
    method CowReplace(ghost s: State, cr3: nat, virt: Virt, scratch: Virt, copy: nat)
      requires Inv() && Space(cr3) && Own(copy)
      requires virt.User() && virt.Aligned() && !scratch.User() && scratch.Aligned()
      requires cr3 in s.view.spaces && KernelStep(s, State(), cr3, scratch, Mapped(copy, true, 3))
      requires State().view.at(cr3, virt).Mapped?
      modifies this`arena, this`roles, this`pages
      ensures Inv() && Grown(old(arena), old(roles), arena, roles)
      ensures CowStep(s, State(), cr3, virt, scratch, copy)
      ensures State().view.at(cr3, virt) == Mapped(copy, true, 3)
    {
      ghost var s1, a1 := State(), arena;
      assert cr3 in s1.view.spaces;
      KernelFrame(s, s1, cr3, scratch, Mapped(copy, true, 3), virt);
      hide Booked, Grown, Linked, Translate, ViewOf, FramesOk, UnmapStep, KernelStep, MapStep, CowStep;
      ghost var s2 := CowDrop(cr3, virt, scratch);
      ghost var s3, a3 := State(), arena;
      GrownSpace(a1, roles, a3, roles, cr3);
      MapUnshared(cr3, copy, virt);
      MapFacts(s3, State(), cr3, virt, copy);
      GrownTrans(a1, old(roles), a3, old(roles), arena, roles);
      CowComposed(s, s1, s2, s3, State(), cr3, virt, scratch, copy);
      FramesAfterMap(allocator.freeLists, s1.pages.Keys, s3.pages.Keys, pages.Keys, ram.frames, copy);
    }

    /** The two calls of `unmap` in `cow`. */
    method CowDrop(cr3: nat, virt: Virt, scratch: Virt) returns (ghost mid: State)
      requires Sound() && Space(cr3)
      requires virt.User() && virt.Aligned() && !scratch.User() && scratch.Aligned()
      requires State().view.at(cr3, virt).Mapped?
      requires State().view.at(cr3, scratch).Mapped? && State().view.at(cr3, scratch).depth == 3
      modifies this`arena, this`pages
      ensures Sound() && Grown(old(arena), roles, arena, roles)
      ensures UnmapStep(old(State()), mid, cr3, virt) && KernelStep(mid, State(), cr3, scratch, NotMapped)
      ensures TablesSame(mid.view, State().view)
      ensures State().view.spaces == old(State()).view.spaces && pages.Keys <= old(pages).Keys
      ensures State().view.at(cr3, virt) == NotMapped
    {
      ghost var s := State();
      assert cr3 in s.view.spaces;
      LeafRecord(s, cr3, virt);
      hide Booked, Grown, Linked, Translate, ViewOf, UnmapStep, KernelStep;
      var r := Unmap(cr3, virt);
      mid := State();
      ghost var m := arena;
      UnmapFacts(s, mid, cr3, virt, scratch);
      GrownSpace(old(arena), roles, m, roles, cr3);
      r := Unmap(cr3, scratch);
      KernelFrame(mid, State(), cr3, scratch, NotMapped, virt);
      GrownTrans(old(arena), roles, m, roles, arena, roles);
    }
  }

  lemma ForkedBooks(s: State, t: State, cr3: nat, child: nat)
    requires Booked(s) && cr3 in s.view.spaces && ForkStep(s, t, cr3, child)
    ensures Booked(t) && t.pages.Keys == s.pages.Keys
  {
    ForkKeepsBooks(s, t, cr3, child);
  }

  lemma UnmapFacts(s: State, t: State, cr3: nat, virt: Virt, scratch: Virt)
    requires UnmapStep(s, t, cr3, virt) && cr3 in s.view.spaces
    requires virt.User() && virt.Aligned() && !scratch.User() && scratch.Aligned()
    requires s.view.at(cr3, virt).page in s.pages && Booked(s)
    ensures t.view.spaces == s.view.spaces && t.pages.Keys <= s.pages.Keys
    ensures t.view.at(cr3, virt) == NotMapped && t.view.at(cr3, scratch) == s.view.at(cr3, scratch)
  {
  }

  lemma MapFacts(s: State, t: State, cr3: nat, virt: Virt, page: nat)
    requires MapStep(s, t, cr3, virt, page) && cr3 in s.view.spaces && virt.Aligned()
    ensures t.pages.Keys == s.pages.Keys + {page} && t.view.at(cr3, virt) == Mapped(page, true, 3)
  {
  }

  /** A kernel step leaves every user page alone. */
  lemma KernelFrame(s: State, t: State, cr3: nat, scratch: Virt, tr: Translation, v: Virt)
    requires KernelStep(s, t, cr3, scratch, tr) && cr3 in s.view.spaces
    requires !scratch.User() && scratch.Aligned() && v.User() && v.Aligned()
    ensures t.view.at(cr3, v) == s.view.at(cr3, v) && t.view.at(cr3, scratch) == tr
    ensures t.view.spaces == s.view.spaces && t.pages == s.pages
  {
  }

  /** Entries that are not present keep what they hold. */
  ghost predicate AbsentKept(a: Arena, b: Arena) {
    && |a.tables| <= |b.tables|
    && forall t: nat, i: Index {:trigger b.At(t, i)} | t < |a.tables| && !a.At(t, i).flags.present ::
         b.At(t, i) == a.At(t, i)
  }

  /** The entry that the walk found is zero now. */
  predicate Zeroed(w: WalkResult, b: Arena) { w.Leaf? && w.table < |b.tables| && b.At(w.table, w.idx) == ZERO_ENTRY }

  lemma GrownRefl(a: Arena, roles: seq<Role>)
    requires |roles| == |a.tables|
    ensures Grown(a, roles, a, roles)
  {
  }

  lemma ViewAt(a: Arena, roles: seq<Role>, cr3: nat, v: Virt)
    ensures IsSpace(a, roles, cr3) ==> cr3 in ViewOf(a, roles).spaces
    ensures ViewOf(a, roles).at(cr3, v) == Translate(a, cr3, v)
  {
  }

  lemma PageMapped(a: Arena, roles: seq<Role>, cr3: nat, virt: Virt)
    requires IsSpace(a, roles, cr3) && |roles| == |a.tables|
    ensures Translate(a, cr3, virt) == Translate(a, cr3, virt.Page())
  {
  }

  /** No large page lies over the address. */
  ghost predicate NoLargePage(s: State, cr3: nat, virt: Virt) {
    s.view.at(cr3, virt).Mapped? ==> s.view.at(cr3, virt).depth == 3
  }

  /** Where `cow` does not panic: on a read-only page. */
  ghost predicate MayCow(s: State, cr3: nat, virt: Virt) {
    s.view.at(cr3, virt).Mapped? && !s.view.at(cr3, virt).writable
  }

  /** The frame, which nobody maps, is now mapped, writable, at (cr3, virt). */
  ghost predicate FillStep(s: State, t: State, cr3: nat, virt: Virt, page: nat) {
    && t.view.at(cr3, virt) == Mapped(page, true, 3) && page !in s.pages
    && if virt.User() then MapStep(s, t, cr3, virt, page) else KernelStep(s, t, cr3, virt, Mapped(page, true, 3))
  }

  lemma FillFrom(s: State, t: State, cr3: nat, virt: Virt, page: nat)
    requires page !in s.pages && cr3 in s.view.spaces && virt.Aligned()
    requires if virt.User() then MapStep(s, t, cr3, virt, page) else KernelStep(s, t, cr3, virt, Mapped(page, true, 3))
    ensures FillStep(s, t, cr3, virt, page)
  {
  }

  lemma FramesAfterMap(lists: seq<set<nat>>, mapped: set<nat>, kept: set<nat>, mapped': set<nat>, frames: set<nat>,
                       page: nat)
    requires FramesOk(lists, mapped, frames) && NotPooled(lists, page) && page in frames
    requires kept <= mapped && mapped' == kept + {page}
    ensures FramesOk(lists, mapped', frames)
  {
  }

  function LeafOf(e: Entry): Translation {
    if e.flags.present then Mapped(e.page, e.flags.rw, 3) else NotMapped
  }

  /** Every other space that has an alias of the frame maps the caller's address. */
  ghost predicate AliasesMap(s: State, cr3: nat, virt: Virt, page: nat) {
    page in s.pages ==> forall x | x in s.pages[page].aliases :: x.cr3 == cr3 || s.view.at(x.cr3, virt).Mapped?
  }

  /** Where `map` keeps the books it does not panic. */
  lemma MayMapAliases(s: State, cr3: nat, virt: Virt, page: nat)
    requires Booked(s) && MayMap(s, cr3, virt, page)
    ensures AliasesMap(s, cr3, virt, page)
  {
    if page in s.pages {
      forall x | x in s.pages[page].aliases
        ensures s.view.at(x.cr3, virt).Mapped?
      {
        assert AliasTrue(s.view, page, x);
      }
    }
  }

  lemma InstalledAliases(s: State, b: View, cr3: nat, virt: Virt, page: nat)
    requires Booked(s) && page in s.pages
    requires UserWrite(s.view, b, cr3, virt, Mapped(page, true, 3))
    requires cr3 in s.view.spaces && virt.User() && virt.Aligned()
    ensures forall x | x in Join(s.pages[page], Alias(cr3, virt)).aliases :: x.cr3 in b.spaces
    ensures (forall x | x in Join(s.pages[page], Alias(cr3, virt)).aliases :: b.at(x.cr3, virt).Mapped?)
            <==> AliasesMap(s, cr3, virt, page)
  {
    forall x | x in s.pages[page].aliases
      ensures x.cr3 in s.view.spaces
    {
      assert AliasTrue(s.view, page, x);
    }
  }

  lemma InstalledShared(s: State, m: View, t: State, cr3: nat, virt: Virt, page: nat)
    requires page in s.pages && t.pages == s.pages[page := Join(s.pages[page], Alias(cr3, virt))]
    requires cr3 in s.view.spaces
    requires UserWrite(s.view, m, cr3, virt, Mapped(page, true, 3)) && TablesGrow(s.view, m, cr3, virt)
    requires Protected(m, t.view, SpacesOf(t.pages[page].aliases), virt) && TablesSame(m, t.view)
    requires FlagsMarked(s.view, m, cr3, virt)
    requires FlagsProtected(m, t.view, SpacesOf(t.pages[page].aliases), virt)
    ensures ShareStep(s, t, cr3, virt, page)
  {
  }

  lemma ProtectOne(a: View, m: View, b: View, done: set<Alias>, x: Alias, virt: Virt)
    requires x.cr3 in a.spaces && virt.Aligned() && m.at(x.cr3, virt).Mapped? && m.at(x.cr3, virt).depth == 3
    requires Protected(a, m, SpacesOf(done), virt)
    requires UserWrite(m, b, x.cr3, virt, Mapped(m.at(x.cr3, virt).page, false, 3))
    requires FlagsProtected(a, m, SpacesOf(done), virt) && FlagsRw(m, b, x.cr3, virt, false)
    ensures Protected(a, b, SpacesOf(done + {x}), virt) && FlagsProtected(a, b, SpacesOf(done + {x}), virt)
  {
    assert SpacesOf(done + {x}) == SpacesOf(done) + {x.cr3} by {
      assert x in done + {x};
    }
  }

  lemma DroppedAlone(s: State, b: View, cr3: nat, virt: Virt, page: nat)
    requires page in s.pages && s.pages[page].refs != 2 && UserWrite(s.view, b, cr3, virt, NotMapped)
    requires virt.User() && FlagsWrite(s.view, b, cr3, virt, NO_FLAGS)
    ensures Dropped(s, b, cr3, virt, page) && FlagsDropped(s, b, cr3, virt, page)
  {
  }

  lemma DroppedSurvivor(s: State, m: View, b: View, cr3: nat, virt: Virt, page: nat, y: Alias)
    requires page in s.pages && s.pages[page].refs == 2 && OneHome(s.pages[page].aliases)
    requires virt.User() && virt.Aligned()
    requires Alias(cr3, virt) in s.pages[page].aliases && s.pages[page].aliases - {Alias(cr3, virt)} == {y}
    requires UserWrite(s.view, m, cr3, virt, NotMapped) && UserWrite(m, b, y.cr3, virt, Mapped(page, true, 3))
    requires FlagsWrite(s.view, m, cr3, virt, NO_FLAGS) && FlagsRw(m, b, y.cr3, virt, true)
    ensures Dropped(s, b, cr3, virt, page) && FlagsDropped(s, b, cr3, virt, page)
  {
    assert y in s.pages[page].aliases - {Alias(cr3, virt)};
    assert s.pages[page].aliases == (s.pages[page].aliases - {Alias(cr3, virt)}) + {Alias(cr3, virt)};
  }

  lemma UserDepth(a: Arena, roles: seq<Role>, cr3: nat, virt: Virt)
    requires Linked(a, roles) && IsSpace(a, roles, cr3) && virt.User()
    ensures Translate(a, cr3, virt).Mapped? ==> Translate(a, cr3, virt).depth == 3
  {
    assert TableLinked(a, roles, a.TableOf(cr3));
    WalkOnRoles(a, roles, a.TableOf(cr3), a.TableOf(cr3), 0, virt);
  }

  /** The effect on the view of a store into the page table slot of (cr3, virt). */
  lemma StoreView(a: Arena, roles: seq<Role>, cr3: nat, virt: Virt, e: Entry)
    requires Linked(a, roles) && IsSpace(a, roles, cr3) && virt.Aligned() && Reach(a, a.TableOf(cr3), virt, 3) >= 0
    ensures
      var b := ViewOf(a.Set(Reach(a, a.TableOf(cr3), virt, 3), virt.i1, e), roles);
      && TablesSame(ViewOf(a, roles), b)
      && if virt.User() then UserWrite(ViewOf(a, roles), b, cr3, virt, LeafOf(e))
         else KernelWrite(ViewOf(a, roles), b, cr3, virt, LeafOf(e))
  {
    var t := Reach(a, a.TableOf(cr3), virt, 3);
    var b := a.Set(t, virt.i1, e);
    ReachOnRoles(a, roles, a.TableOf(cr3), virt, 3);
    forall c: nat, v: Virt | IsSpace(a, roles, c)
      ensures LastTable(b, c, v) == LastTable(a, c, v)
    {
      LastAfterStore(a, roles, t, virt.i1, e, a.TableOf(c), 0, v);
    }
    forall c: nat, v: Virt | IsSpace(a, roles, c) && v.Aligned()
      ensures virt.User() ==> Translate(b, c, v) == if c == cr3 && v == virt then LeafOf(e) else Translate(a, c, v)
      ensures !virt.User() ==>
                Translate(b, c, v) ==
                  if v == virt && Shared(ViewOf(a, roles), c, cr3, virt) then LeafOf(e) else Translate(a, c, v)
    {
      if virt.User() {
        StoreUserPage(a, roles, cr3, virt, e, c, v);
      } else {
        StoreKernelPage(a, roles, cr3, virt, e, c, v);
        SharedTable(a, roles, a.TableOf(c), a.TableOf(cr3), virt);
      }
    }
  }

  /** The flags of a leaf are those its walk finds. */
  lemma LeafFlags(a: Arena, roles: seq<Role>, cr3: nat, virt: Virt)
    requires Linked(a, roles) && IsSpace(a, roles, cr3)
    requires Translate(a, cr3, virt).Mapped? && Translate(a, cr3, virt).depth == 3
    ensures Reach(a, a.TableOf(cr3), virt, 3) >= 0
    ensures SlotFlags(a, cr3, virt, 3) == Walk(a, a.TableOf(cr3), 0, virt).entry.flags
  {
    var root := a.TableOf(cr3);
    assert TableLinked(a, roles, root);
    WalkOnRoles(a, roles, root, root, 0, virt);
    MappedReach(a, roles, root, virt, 0);
    FlagsAfterLeaf(a, roles, root, virt, ZERO_ENTRY);
  }

  /** Who sees an entry, in terms of the tables. */
  lemma SeesWay(a: Arena, roles: seq<Role>, c: nat, cr3: nat, virt: Virt)
    requires Linked(a, roles) && IsSpace(a, roles, c) && IsSpace(a, roles, cr3)
    ensures Sees(ViewOf(a, roles), c, cr3, virt) <==> SameWay(a, a.TableOf(c), a.TableOf(cr3), virt)
  {
    if virt.User() {
      UserWay(a, roles, a.TableOf(c), a.TableOf(cr3), virt);
    }
  }

  /** The effect of a store into a page table slot on the flags. */
  lemma StoreFlags(a: Arena, roles: seq<Role>, cr3: nat, virt: Virt, e: Entry)
    requires Linked(a, roles) && IsSpace(a, roles, cr3) && Reach(a, a.TableOf(cr3), virt, 3) >= 0
    ensures
      var b := a.Set(Reach(a, a.TableOf(cr3), virt, 3), virt.i1, e);
      FlagsWrite(ViewOf(a, roles), ViewOf(b, roles), cr3, virt, e.flags)
  {
    hide Linked;
    var root := a.TableOf(cr3);
    var b := a.Set(Reach(a, root, virt, 3), virt.i1, e);
    FlagsAfterLeaf(a, roles, root, virt, e);
    forall c: nat, v: Virt, k: nat | IsSpace(a, roles, c) && k <= 3
      ensures SlotFlags(b, c, v, k) ==
              if k == 3 && Along(v, virt, 3) && Sees(ViewOf(a, roles), c, cr3, virt) then e.flags
              else SlotFlags(a, c, v, k)
    {
      SeesWay(a, roles, c, cr3, virt);
    }
  }

  /** A store that changes only RW. */
  lemma RwFlags(a: Arena, roles: seq<Role>, b: View, cr3: nat, virt: Virt, rw: bool)
    requires Linked(a, roles) && IsSpace(a, roles, cr3) && Reach(a, a.TableOf(cr3), virt, 3) >= 0 && virt.User()
    requires FlagsWrite(ViewOf(a, roles), b, cr3, virt, SlotFlags(a, cr3, virt, 3).(rw := rw))
    ensures FlagsRw(ViewOf(a, roles), b, cr3, virt, rw)
  {
    hide Linked;
    forall v: Virt | Along(v, virt, 3)
      ensures SlotFlags(a, cr3, v, 3) == SlotFlags(a, cr3, virt, 3)
    {
      SharedFlags(a, roles, a.TableOf(cr3), a.TableOf(cr3), virt, v);
    }
  }

  /** Marking the whole way, as the view shows it. */
  lemma MarkedView(a: Arena, roles: seq<Role>, b: Arena, roles': seq<Role>, cr3: nat, virt: Virt)
    requires |roles| == |a.tables| <= |b.tables| && a.base == b.base && Linked(a, roles) && IsSpace(a, roles, cr3)
    requires FlagsAdded(a, roles, b, a.TableOf(cr3), virt, 0, 4)
    ensures FlagsMarked(ViewOf(a, roles), ViewOf(b, roles'), cr3, virt)
  {
    hide Linked;
    forall c: nat, v: Virt, k: nat | IsSpace(a, roles, c) && k <= 3
      ensures SlotFlags(b, c, v, k) ==
              Marked(SlotFlags(a, c, v, k), k, Along(v, virt, k) && Sees(ViewOf(a, roles), c, cr3, virt))
    {
      SeesWay(a, roles, c, cr3, virt);
    }
  }

  /** Equal walks give equal views, and longer paths longer ones. */
  lemma SameView(a: Arena, roles: seq<Role>, b: Arena, roles': seq<Role>, cr3: nat, virt: Virt)
    requires |roles| == |a.tables| <= |b.tables| == |roles'| && a.base == b.base && SameSpaces(roles, roles')
    requires forall r: nat, w: Virt | IsRoot(roles, r) :: Walk(b, r, 0, w) == Walk(a, r, 0, w)
    requires IsSpace(a, roles, cr3) && PathsGrow(a, roles, b, a.TableOf(cr3), virt)
    ensures ViewOf(a, roles).spaces == ViewOf(b, roles').spaces
    ensures TablesGrow(ViewOf(a, roles), ViewOf(b, roles'), cr3, virt)
    ensures forall c: nat, v: Virt | c in ViewOf(a, roles).spaces ::
            ViewOf(b, roles').at(c, v) == ViewOf(a, roles).at(c, v)
  {
    hide TablesGrow, PathsGrow;
    GrownTables(a, roles, b, roles', cr3, virt);
    forall c: nat, v: Virt | IsSpace(a, roles, c)
      ensures Translate(b, c, v) == Translate(a, c, v)
    {
    }
  }

  lemma GrownTables(a: Arena, roles: seq<Role>, b: Arena, roles': seq<Role>, cr3: nat, virt: Virt)
    requires |roles| == |a.tables| <= |b.tables| == |roles'| && a.base == b.base
    requires IsSpace(a, roles, cr3) && PathsGrow(a, roles, b, a.TableOf(cr3), virt)
    ensures TablesGrow(ViewOf(a, roles), ViewOf(b, roles'), cr3, virt)
  {
    hide Last, Translate;
    forall c: nat | IsSpace(a, roles, c)
      ensures LastTable(b, c, virt) == LastTable(b, cr3, virt) <==> LastTable(a, c, virt) == LastTable(a, cr3, virt)
    {
    }
  }
}
