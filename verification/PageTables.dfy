/** The arena of 512-entry paging structures and the 4-level walk over it.

    An entry is kept as its decoded fields: the flags and the page number in
    bits 51..12 (PagingEntry.dfy ties this to the 64-bit word).  A canonical virtual address
    is kept as its four table indices and its page offset (Addresses.dfy shows
    that this is a bijection).  Table number `t` of the arena lies at physical page
    `base + t`. */
module PageTables {

  const ENTRIES := 512
  const USER_SLOTS := 256

  datatype OtherFlag = US | PWT | PCD | Accessed | Dirty | Global

  datatype Flags = Flags(present: bool, rw: bool, ps: bool, other: set<OtherFlag>)
  {
    function Or(f: Flags): Flags {
      Flags(present || f.present, rw || f.rw, ps || f.ps, other + f.other)
    }
  }

  const NO_FLAGS := Flags(false, false, false, {})
  const PRESENT_RW := Flags(true, true, false, {})

  /** The page number with its lowest bit set: what ORing PAT_FLAG (bit 12) into an entry does to
      the address field it overlaps. */
  function SetLowBit(page: nat): nat { if page % 2 == 0 then page + 1 else page }

  /** The value of `get_flags(ALL_FLAGS)`: bit 12 of the word is read as the PAT flag. */
  datatype FlagWord = FlagWord(low: Flags, pat: bool)

  datatype Entry = Entry(flags: Flags, page: nat)
  {
    function GetFlags(): FlagWord { FlagWord(flags, page % 2 == 1) }

    function SetAddr(p: nat): Entry { Entry(flags, p) }

    function SetFlags(w: FlagWord): Entry {
      Entry(flags.Or(w.low), if w.pat then SetLowBit(page) else page)
    }

    function SetRw(b: bool): Entry { Entry(flags.(rw := b), page) }
  }

  const ZERO_ENTRY := Entry(NO_FLAGS, 0)

  type Table = t: seq<Entry> | |t| == ENTRIES witness seq(ENTRIES, _ => ZERO_ENTRY)

  function ZeroTable(): (t: Table)
    ensures forall i: nat | i < ENTRIES :: t[i] == ZERO_ENTRY
  {
    seq(ENTRIES, _ => ZERO_ENTRY)
  }

  type Index = i: nat | i < 512
  type Offset = o: nat | o < 4096

  /** A canonical virtual address. */
  datatype Virt = Virt(i4: Index, i3: Index, i2: Index, i1: Index, off: Offset)
  {
    /** The index used in the table at `depth` (0: PML4, 1: PDPT, 2: PD, 3: PT). */
    function Slot(depth: nat): Index
      requires depth <= 3
    {
      if depth == 0 then i4 else if depth == 1 then i3 else if depth == 2 then i2 else i1
    }

    predicate User() { i4 < USER_SLOTS }

    predicate Aligned() { off == 0 }

    function Page(): Virt { Virt(i4, i3, i2, i1, 0) }
  }

  /** A table with one entry. */
  function OneEntry(i: Index, page: nat): Table { ZeroTable()[i := Entry(PRESENT_RW, page)] }

  datatype Arena = Arena(base: nat, tables: seq<Table>)
  {
    predicate Holds(page: nat) { base <= page < base + |tables| }

    /** `table_for_phys_addr`. */
    function TableOf(page: nat): nat
      requires Holds(page)
    {
      page - base
    }

    function At(t: nat, i: Index): Entry
      requires t < |tables|
    {
      tables[t][i]
    }

    function Set(t: nat, i: Index, e: Entry): Arena
      requires t < |tables|
    {
      Arena(base, tables[t := tables[t][i := e]])
    }

    function Extend(): Arena { Arena(base, tables + [ZeroTable()]) }
  }

  // ---- the walk ----------------------------------------------------------

  /** `Wild` marks a walk that follows a pointer out of the arena. */
  datatype WalkResult =
    | Unmapped
    | Wild
    | Leaf(table: nat, idx: Index, entry: Entry, depth: nat)

  /** `walk_to_leaf`, started at table `t` of the given depth. */
  function Walk(a: Arena, t: nat, depth: nat, v: Virt): WalkResult
    requires t < |a.tables| && depth <= 3
    decreases 3 - depth
  {
    var e := a.At(t, v.Slot(depth));
    if !e.flags.present then Unmapped
    else if depth == 3 || (depth > 0 && e.flags.ps) then Leaf(t, v.Slot(depth), e, depth)
    else if a.Holds(e.page) then Walk(a, a.TableOf(e.page), depth + 1, v)
    else Wild
  }

  /** What software observes of a walk: the frame, whether the leaf permits writes, and the size. */
  datatype Translation = NotMapped | WildWalk | Mapped(page: nat, writable: bool, depth: nat)

  function Observed(w: WalkResult): Translation {
    match w
    case Unmapped => NotMapped
    case Wild => WildWalk
    case Leaf(_, _, e, depth) => Mapped(e.page, e.flags.rw, depth)
  }

  function ReadOnly(t: Translation): Translation {
    if t.Mapped? then Mapped(t.page, false, t.depth) else t
  }

  /** The table reached at depth `k` on the way to `v`. */
  function Reach(a: Arena, root: nat, v: Virt, k: nat): (t: int)
    requires root < |a.tables| && k <= 3
    ensures -1 <= t < |a.tables|
  {
    if k == 0 then root
    else
      var p := Reach(a, root, v, k - 1);
      if p < 0 then -1
      else
        var e := a.At(p, v.Slot(k - 1));
        if e.flags.present && (k == 1 || !e.flags.ps) && a.Holds(e.page) then a.TableOf(e.page) else -1
  }

  /** The last table on the way from table `t` to `v`. */
  function Last(a: Arena, t: nat, depth: nat, v: Virt): (l: nat)
    requires t < |a.tables| && depth <= 3
    ensures l < |a.tables|
    decreases 3 - depth
  {
    var e := a.At(t, v.Slot(depth));
    if depth < 3 && e.flags.present && (depth == 0 || !e.flags.ps) && a.Holds(e.page) then
      Last(a, a.TableOf(e.page), depth + 1, v)
    else t
  }

  /** The flags of the entry at depth `k` on the way from table `t` to `v`; none if there is no such table. */
  function FlagsAt(a: Arena, t: nat, depth: nat, v: Virt, k: nat): Flags
    requires t < |a.tables| && depth <= k <= 3
    decreases 3 - depth
  {
    var e := a.At(t, v.Slot(depth));
    if depth == k then e.flags
    else if e.flags.present && (depth == 0 || !e.flags.ps) && a.Holds(e.page) then
      FlagsAt(a, a.TableOf(e.page), depth + 1, v, k)
    else NO_FLAGS
  }

  /** The ways to the two addresses use the same slots down to depth `k`. */
  predicate Along(v: Virt, w: Virt, k: nat) {
    v.i4 == w.i4 && (k >= 1 ==> v.i3 == w.i3) && (k >= 2 ==> v.i2 == w.i2) && (k >= 3 ==> v.i1 == w.i1)
  }

  lemma {:induction false} ReachWalk(a: Arena, root: nat, v: Virt, k: nat)
    requires root < |a.tables| && k <= 3
    requires Reach(a, root, v, k) >= 0
    ensures Walk(a, root, 0, v) == Walk(a, Reach(a, root, v, k), k, v)
    ensures forall j: nat | j < k :: Reach(a, root, v, j) >= 0
  {
    if k > 0 {
      ReachWalk(a, root, v, k - 1);
    }
  }

  // ---- what each table is for --------------------------------------------

  /** The place of a table in the tree: the address space it belongs to (the arena index of the root, or -1
      for the kernel half, which all spaces may share), its depth, and the indices that lead to it. */
  datatype Role = Role(space: int, depth: nat, i4: Index, i3: Index, i2: Index)
  {
    function Child(i: Index): Role
      requires depth <= 2
    {
      if depth == 0 then Role(if i < USER_SLOTS then space else -1, 1, i, 0, 0)
      else if depth == 1 then Role(space, 2, i4, i, 0)
      else Role(space, 3, i4, i3, i)
    }
  }

  function RoleAt(root: nat, v: Virt, depth: nat): Role
    requires depth <= 3
  {
    var space := if v.i4 < USER_SLOTS then root else -1;
    if depth == 0 then Role(root, 0, 0, 0, 0)
    else if depth == 1 then Role(space, 1, v.i4, 0, 0)
    else if depth == 2 then Role(space, 2, v.i4, v.i3, 0)
    else Role(space, 3, v.i4, v.i3, v.i2)
  }

  predicate IsPointer(r: Role, e: Entry) {
    e.flags.present && r.depth <= 2 && (r.depth == 0 || !e.flags.ps)
  }

  /** A pointer leads to the table that belongs below it; pointers of the user half allow writes; the user
      half has no large pages; PS is never left set in an absent entry. */
  predicate EntryLinked(a: Arena, roles: seq<Role>, r: Role, i: Index, e: Entry)
    requires |roles| == |a.tables|
  {
    && (IsPointer(r, e) ==> a.Holds(e.page) && roles[a.TableOf(e.page)] == r.Child(i))
    && (1 <= r.depth <= 2 && (r.space >= 0 || !e.flags.present) ==> !e.flags.ps)
    && (IsPointer(r, e) && r.space >= 0 && (r.depth > 0 || i < USER_SLOTS) ==> e.flags.rw)
  }

  ghost predicate TableLinked(a: Arena, roles: seq<Role>, t: nat)
    requires |roles| == |a.tables| && t < |roles|
  {
    && roles[t].depth <= 3
    && roles[t].space >= -1
    && (roles[t].depth == 0 ==> roles[t] == Role(t, 0, 0, 0, 0))
    && forall i: Index {:trigger EntryLinked(a, roles, roles[t], i, a.At(t, i))} ::
         EntryLinked(a, roles, roles[t], i, a.At(t, i))
  }

  ghost predicate Linked(a: Arena, roles: seq<Role>) {
    && |roles| == |a.tables|
    && forall t: nat {:trigger TableLinked(a, roles, t)} | t < |roles| :: TableLinked(a, roles, t)
  }

  ghost predicate IsRoot(roles: seq<Role>, t: nat) {
    t < |roles| && roles[t].depth == 0
  }

  /** A walk stays on the tables whose roles spell its address, and never leaves the arena. */
  lemma {:induction false} WalkOnRoles(a: Arena, roles: seq<Role>, root: nat, t: nat, depth: nat, v: Virt)
    requires Linked(a, roles) && t < |roles| && depth <= 3 && roles[t] == RoleAt(root, v, depth)
    ensures !Walk(a, t, depth, v).Wild?
    ensures
      var w := Walk(a, t, depth, v);
      w.Leaf? ==>
        && depth <= w.depth <= 3 && w.table < |roles| && roles[w.table] == RoleAt(root, v, w.depth)
        && w.idx == v.Slot(w.depth) && w.entry == a.At(w.table, w.idx) && w.entry.flags.present
        && (v.User() ==> w.depth == 3)
    decreases 3 - depth
  {
    var e := a.At(t, v.Slot(depth));
    assert TableLinked(a, roles, t) && EntryLinked(a, roles, roles[t], v.Slot(depth), e);
    if IsPointer(roles[t], e) {
      WalkOnRoles(a, roles, root, a.TableOf(e.page), depth + 1, v);
    }
  }

  lemma {:induction false} ReachOnRoles(a: Arena, roles: seq<Role>, root: nat, v: Virt, k: nat)
    requires Linked(a, roles) && IsRoot(roles, root) && k <= 3
    requires Reach(a, root, v, k) >= 0
    ensures roles[Reach(a, root, v, k)] == RoleAt(root, v, k)
  {
    assert TableLinked(a, roles, root);
    if k > 0 {
      ReachOnRoles(a, roles, root, v, k - 1);
      var p: nat := Reach(a, root, v, k - 1);
      assert TableLinked(a, roles, p) && EntryLinked(a, roles, roles[p], v.Slot(k - 1), a.At(p, v.Slot(k - 1)));
    }
  }

  /** A table below the root serves one block of addresses only, and in the user half one address space only. */
  lemma TableUnique(a: Arena, roles: seq<Role>, r: nat, v: Virt, r': nat, v': Virt, k: nat)
    requires Linked(a, roles) && IsRoot(roles, r) && IsRoot(roles, r') && 1 <= k <= 3
    requires 0 <= Reach(a, r, v, k) == Reach(a, r', v', k)
    ensures v.i4 == v'.i4 && (k >= 2 ==> v.i3 == v'.i3) && (k >= 3 ==> v.i2 == v'.i2)
    ensures v.User() ==> r == r'
  {
    ReachOnRoles(a, roles, r, v, k);
    ReachOnRoles(a, roles, r', v', k);
  }

  // ---- the effect of the two kinds of store ------------------------------

  /** Pointers, once present, are never changed. */
  ghost predicate PointersKept(a: Arena, roles: seq<Role>, b: Arena)
    requires |roles| == |a.tables|
  {
    && a.base == b.base && |a.tables| <= |b.tables|
    && forall t: nat, i: Index {:trigger IsPointer(roles[t], a.At(t, i))} |
         t < |a.tables| && IsPointer(roles[t], a.At(t, i)) :: b.At(t, i) == a.At(t, i)
  }

  lemma {:induction false} ReachKept(a: Arena, roles: seq<Role>, b: Arena, root: nat, v: Virt, k: nat)
    requires Linked(a, roles) && PointersKept(a, roles, b) && IsRoot(roles, root) && k <= 3
    requires Reach(a, root, v, k) >= 0
    ensures Reach(b, root, v, k) == Reach(a, root, v, k)
  {
    if k > 0 {
      ReachWalk(a, root, v, k);
      ReachKept(a, roles, b, root, v, k - 1);
      ReachOnRoles(a, roles, root, v, k - 1);
      var p: nat := Reach(a, root, v, k - 1);
      assert IsPointer(roles[p], a.At(p, v.Slot(k - 1)));
    }
  }

  lemma {:induction false} ReachStops(a: Arena, root: nat, v: Virt, j: nat, k: nat)
    requires root < |a.tables| && j <= k <= 3
    requires Reach(a, root, v, j) < 0
    ensures Reach(a, root, v, k) < 0
  {
  }

  /** Storing an entry in a page table changes the walks that reach that slot, and no other. */
  lemma {:induction false} WalkAfterStore(a: Arena, roles: seq<Role>, t: nat, i: Index, e: Entry,
                                          root: nat, v: Virt, depth: nat)
    requires Linked(a, roles) && t < |roles| && roles[t].depth == 3
    requires IsRoot(roles, root) && depth <= 3 && Reach(a, root, v, depth) >= 0
    ensures
      Walk(a.Set(t, i, e), Reach(a, root, v, depth), depth, v) ==
      if Reach(a, root, v, 3) == t && v.i1 == i
      then if e.flags.present then Leaf(t, i, e, 3) else Unmapped
      else Walk(a, Reach(a, root, v, depth), depth, v)
    decreases 3 - depth
  {
    ReachOnRoles(a, roles, root, v, depth);
    if depth < 3 {
      if Reach(a, root, v, depth + 1) >= 0 {
        WalkAfterStore(a, roles, t, i, e, root, v, depth + 1);
      } else {
        ReachStops(a, root, v, depth + 1, 3);
      }
    }
  }

  lemma LinkedAfterStore(a: Arena, roles: seq<Role>, t: nat, i: Index, e: Entry)
    requires Linked(a, roles) && t < |roles| && roles[t].depth == 3
    ensures Linked(a.Set(t, i, e), roles) && PointersKept(a, roles, a.Set(t, i, e))
  {
    forall k: nat | k < |roles|
      ensures TableLinked(a.Set(t, i, e), roles, k)
    {
      assert TableLinked(a, roles, k);
      forall j: Index ensures EntryLinked(a.Set(t, i, e), roles, roles[k], j, a.Set(t, i, e).At(k, j)) {
        assert EntryLinked(a, roles, roles[k], j, a.At(k, j));
      }
    }
  }

  /** Nor does it change how far the tables lead. */
  lemma {:induction false} LastAfterStore(a: Arena, roles: seq<Role>, t: nat, i: Index, e: Entry,
                                          s: nat, depth: nat, v: Virt)
    requires Linked(a, roles) && t < |roles| && roles[t].depth == 3 && s < |roles| && roles[s].depth == depth <= 3
    ensures Last(a.Set(t, i, e), s, depth, v) == Last(a, s, depth, v)
    decreases 3 - depth
  {
    var next := a.At(s, v.Slot(depth));
    assert TableLinked(a, roles, s) && EntryLinked(a, roles, roles[s], v.Slot(depth), next);
    if IsPointer(roles[s], next) {
      LastAfterStore(a, roles, t, i, e, a.TableOf(next.page), depth + 1, v);
    }
  }

  /** A new table below table `t` extends exactly the paths that ended there for want of it. */
  lemma {:induction false} LastAfterLink(a: Arena, roles: seq<Role>, t: nat, i: Index, e: Entry,
                                         s: nat, depth: nat, v: Virt)
    requires Linked(a, roles) && t < |roles| && roles[t].depth <= 2 && !a.At(t, i).flags.present
    requires e.flags.present && (roles[t].depth == 0 || !e.flags.ps) && e.page == a.base + |a.tables|
    requires s < |roles| && roles[s].depth == depth <= 3
    ensures Last(a.Set(t, i, e).Extend(), s, depth, v) ==
            if Last(a, s, depth, v) == t && v.Slot(roles[t].depth) == i then |a.tables| else Last(a, s, depth, v)
    decreases 3 - depth
  {
    var b := a.Set(t, i, e).Extend();
    var next := a.At(s, v.Slot(depth));
    assert TableLinked(a, roles, s) && EntryLinked(a, roles, roles[s], v.Slot(depth), next);
    if s == t && v.Slot(depth) == i {
      assert b.At(|a.tables|, v.Slot(depth + 1)) == ZERO_ENTRY;
    } else if IsPointer(roles[s], next) {
      LastAfterLink(a, roles, t, i, e, a.TableOf(next.page), depth + 1, v);
    }
  }

  /** A store into a page table changes the flags of that entry, wherever the table is the last one on the way. */
  lemma {:induction false} FlagsAfterStore(a: Arena, roles: seq<Role>, t: nat, i: Index, e: Entry,
                                           s: nat, depth: nat, v: Virt, k: nat)
    requires Linked(a, roles) && t < |roles| && roles[t].depth == 3
    requires s < |roles| && roles[s].depth == depth <= k <= 3
    ensures FlagsAt(a.Set(t, i, e), s, depth, v, k) ==
            if k == 3 && Last(a, s, depth, v) == t && v.i1 == i then e.flags else FlagsAt(a, s, depth, v, k)
    decreases 3 - depth
  {
    var next := a.At(s, v.Slot(depth));
    assert TableLinked(a, roles, s) && EntryLinked(a, roles, roles[s], v.Slot(depth), next);
    if depth < k && IsPointer(roles[s], next) {
      FlagsAfterStore(a, roles, t, i, e, a.TableOf(next.page), depth + 1, v, k);
    }
  }

  /** The flags on the way to the last table, and in it. */
  lemma {:induction false} FlagsToLast(a: Arena, roles: seq<Role>, s: nat, depth: nat, v: Virt, k: nat)
    requires Linked(a, roles) && s < |roles| && roles[s].depth == depth <= k <= 3
    ensures
      var l := Last(a, s, depth, v);
      && depth <= roles[l].depth <= 3
      && (k < roles[l].depth ==> FlagsAt(a, s, depth, v, k).present)
      && (k == roles[l].depth ==> FlagsAt(a, s, depth, v, k) == a.At(l, v.Slot(k)).flags)
    decreases 3 - depth
  {
    var next := a.At(s, v.Slot(depth));
    assert TableLinked(a, roles, s) && EntryLinked(a, roles, roles[s], v.Slot(depth), next);
    if IsPointer(roles[s], next) {
      FlagsToLast(a, roles, a.TableOf(next.page), depth + 1, v, if depth < k then k else depth + 1);
    }
  }

  /** A new table changes the flags of the pointer to it; its own entries have none. */
  lemma {:induction false} FlagsAfterLink(a: Arena, roles: seq<Role>, t: nat, i: Index, e: Entry,
                                          s: nat, depth: nat, v: Virt, k: nat)
    requires Linked(a, roles) && t < |roles| && roles[t].depth <= 2 && !a.At(t, i).flags.present
    requires e.flags.present && (roles[t].depth == 0 || !e.flags.ps) && e.page == a.base + |a.tables|
    requires s < |roles| && roles[s].depth == depth <= k <= 3
    ensures FlagsAt(a.Set(t, i, e).Extend(), s, depth, v, k) ==
            if k == roles[t].depth && Last(a, s, depth, v) == t && v.Slot(k) == i then e.flags
            else FlagsAt(a, s, depth, v, k)
    decreases 3 - depth
  {
    var b := a.Set(t, i, e).Extend();
    var next := a.At(s, v.Slot(depth));
    assert TableLinked(a, roles, s) && EntryLinked(a, roles, roles[s], v.Slot(depth), next);
    if s == t && v.Slot(depth) == i {
      assert depth < k ==> b.At(|a.tables|, v.Slot(depth + 1)) == ZERO_ENTRY;
    } else if depth < k && IsPointer(roles[s], next) {
      FlagsAfterLink(a, roles, t, i, e, a.TableOf(next.page), depth + 1, v, k);
    } else if IsPointer(roles[s], next) {
      FlagsToLast(a, roles, a.TableOf(next.page), depth + 1, v, depth + 1);
    }
  }

  /** Addresses with the same slots meet the same entries. */
  lemma {:induction false} SameAlong(a: Arena, roles: seq<Role>, s: nat, depth: nat, v: Virt, w: Virt, k: nat)
    requires Linked(a, roles) && s < |roles| && roles[s].depth == depth <= k <= 3 && Along(v, w, k)
    ensures FlagsAt(a, s, depth, v, k) == FlagsAt(a, s, depth, w, k)
    ensures roles[Last(a, s, depth, v)].depth <= k ==> Last(a, s, depth, w) == Last(a, s, depth, v)
    decreases 3 - depth
  {
    var next := a.At(s, v.Slot(depth));
    assert TableLinked(a, roles, s) && EntryLinked(a, roles, roles[s], v.Slot(depth), next);
    if IsPointer(roles[s], next) {
      if depth < k {
        SameAlong(a, roles, a.TableOf(next.page), depth + 1, v, w, k);
      } else {
        FlagsToLast(a, roles, a.TableOf(next.page), depth + 1, v, depth + 1);
      }
    }
  }

  /** The last table on the way lies on the way. */
  lemma {:induction false} LastOnRoles(a: Arena, roles: seq<Role>, root: nat, v: Virt, k: nat)
    requires Linked(a, roles) && IsRoot(roles, root) && k <= 3 && Reach(a, root, v, k) >= 0
    ensures
      var t := Last(a, Reach(a, root, v, k), k, v);
      k <= roles[t].depth <= 3 && Reach(a, root, v, roles[t].depth) == t && roles[t] == RoleAt(root, v, roles[t].depth)
    decreases 3 - k
  {
    ReachOnRoles(a, roles, root, v, k);
    if k < 3 && Reach(a, root, v, k + 1) >= 0 {
      LastOnRoles(a, roles, root, v, k + 1);
    }
  }

  lemma {:induction false} LastReach(a: Arena, root: nat, v: Virt, k: nat)
    requires root < |a.tables| && k <= 3 && Reach(a, root, v, k) >= 0
    ensures Last(a, root, 0, v) == Last(a, Reach(a, root, v, k), k, v)
  {
    if k > 0 {
      LastReach(a, root, v, k - 1);
    }
  }

  /** Two spaces share the way to a page table exactly if it is the last table for both. */
  lemma SharedTable(a: Arena, roles: seq<Role>, r: nat, root: nat, v: Virt)
    requires Linked(a, roles) && IsRoot(roles, r) && IsRoot(roles, root) && Reach(a, root, v, 3) >= 0
    ensures Last(a, root, 0, v) == Reach(a, root, v, 3)
    ensures Last(a, r, 0, v) == Last(a, root, 0, v) <==> Reach(a, r, v, 3) == Reach(a, root, v, 3)
  {
    LastReach(a, root, v, 3);
    ReachOnRoles(a, roles, root, v, 3);
    LastOnRoles(a, roles, r, v, 0);
    if Reach(a, r, v, 3) >= 0 {
      LastReach(a, r, v, 3);
    }
  }

  /** From `a` to `b`, tables appeared in the PML4 slot of `v` only, and the way to `v` is shared by the same spaces. */
  ghost predicate PathsGrow(a: Arena, roles: seq<Role>, b: Arena, root: nat, v: Virt)
    requires |roles| == |a.tables| <= |b.tables| && IsRoot(roles, root)
  {
    && (forall r: nat | IsRoot(roles, r) ::
          Last(b, r, 0, v) == Last(b, root, 0, v) <==> Last(a, r, 0, v) == Last(a, root, 0, v))
    && (forall r: nat, w: Virt | IsRoot(roles, r) && w.i4 != v.i4 :: Last(b, r, 0, w) == Last(a, r, 0, w))
  }

  lemma PathsGrowTrans(a: Arena, roles: seq<Role>, m: Arena, roles': seq<Role>, b: Arena, root: nat, v: Virt)
    requires |roles| == |a.tables| <= |m.tables| == |roles'| <= |b.tables| && SameSpaces(roles, roles')
    requires IsRoot(roles, root) && PathsGrow(a, roles, m, root, v) && PathsGrow(m, roles', b, root, v)
    ensures PathsGrow(a, roles, b, root, v)
  {
  }

  lemma PathsAfterLink(a: Arena, roles: seq<Role>, t: nat, i: Index, e: Entry, root: nat, v: Virt)
    requires Linked(a, roles) && IsRoot(roles, root) && t < |roles| && roles[t].depth <= 2
    requires Reach(a, root, v, roles[t].depth) == t && v.Slot(roles[t].depth) == i && !a.At(t, i).flags.present
    requires e.flags.present && (roles[t].depth == 0 || !e.flags.ps) && e.page == a.base + |a.tables|
    ensures PathsGrow(a, roles, a.Set(t, i, e).Extend(), root, v)
  {
    var b := a.Set(t, i, e).Extend();
    LastReach(a, root, v, roles[t].depth);
    ReachOnRoles(a, roles, root, v, roles[t].depth);
    forall r: nat, w: Virt | IsRoot(roles, r)
      ensures Last(b, r, 0, w) ==
              if Last(a, r, 0, w) == t && w.Slot(roles[t].depth) == i then |a.tables| else Last(a, r, 0, w)
      ensures Last(a, r, 0, w) == t && roles[t].depth > 0 ==> w.i4 == v.i4
    {
      LastAfterLink(a, roles, t, i, e, r, 0, w);
      LastOnRoles(a, roles, r, w, 0);
    }
  }

  /** The two roots share the way to `v`, as far as there are tables. */
  predicate SameWay(a: Arena, r: nat, root: nat, v: Virt)
    requires r < |a.tables| && root < |a.tables|
  {
    Last(a, r, 0, v) == Last(a, root, 0, v)
  }

  /** The flags of an entry at depth `k` once `map` has been there: a pointer that is missing and a leaf in any
      case become present and writable, and nothing else changes. */
  function Marked(f: Flags, k: nat, here: bool): Flags {
    if here && (k == 3 || !f.present) then f.(present := true, rw := true) else f
  }

  /** From `a` to `b`, the entries of depth `lo` to `hi` on the way to `v` were marked, and no others changed. */
  ghost predicate FlagsAdded(a: Arena, roles: seq<Role>, b: Arena, root: nat, v: Virt, lo: nat, hi: nat)
    requires |roles| == |a.tables| <= |b.tables| && IsRoot(roles, root)
  {
    forall r: nat, w: Virt, k: nat | IsRoot(roles, r) && k <= 3 ::
      FlagsAt(b, r, 0, w, k) ==
        Marked(FlagsAt(a, r, 0, w, k), k, lo <= k < hi && Along(w, v, k) && SameWay(a, r, root, v))
  }

  lemma FlagsAddedTrans(a: Arena, roles: seq<Role>, m: Arena, roles': seq<Role>, b: Arena, root: nat, v: Virt,
                        lo: nat, mid: nat, hi: nat)
    requires |roles| == |a.tables| <= |m.tables| == |roles'| <= |b.tables| && SameSpaces(roles, roles')
    requires IsRoot(roles, root) && lo <= mid <= hi && PathsGrow(a, roles, m, root, v)
    requires FlagsAdded(a, roles, m, root, v, lo, mid) && FlagsAdded(m, roles', b, root, v, mid, hi)
    ensures FlagsAdded(a, roles, b, root, v, lo, hi)
  {
  }

  /** Where the way to `v` ends at table `t`, the spaces that share it are those whose way to a neighbour ends there. */
  lemma WayEnds(a: Arena, roles: seq<Role>, r: nat, root: nat, v: Virt, w: Virt)
    requires Linked(a, roles) && IsRoot(roles, r) && IsRoot(roles, root)
    ensures
      var t := Last(a, root, 0, v);
      && roles[t].depth <= 3
      && (Last(a, r, 0, w) == t && w.Slot(roles[t].depth) == v.Slot(roles[t].depth)
          <==> Along(w, v, roles[t].depth) && SameWay(a, r, root, v))
  {
    var t := Last(a, root, 0, v);
    LastOnRoles(a, roles, root, v, 0);
    LastOnRoles(a, roles, r, w, 0);
    var d := roles[t].depth;
    if Along(w, v, d) {
      SameAlong(a, roles, r, 0, w, v, d);
      SameAlong(a, roles, r, 0, v, w, d);
    }
  }

  lemma FlagsAfterPointer(a: Arena, roles: seq<Role>, t: nat, i: Index, e: Entry, root: nat, v: Virt)
    requires Linked(a, roles) && IsRoot(roles, root) && t < |roles| && roles[t].depth <= 2
    requires Reach(a, root, v, roles[t].depth) == t && v.Slot(roles[t].depth) == i && !a.At(t, i).flags.present
    requires e.flags == a.At(t, i).flags.Or(PRESENT_RW) && e.page == a.base + |a.tables|
    ensures FlagsAdded(a, roles, a.Set(t, i, e).Extend(), root, v, roles[t].depth, roles[t].depth + 1)
  {
    var d := roles[t].depth;
    LastReach(a, root, v, d);
    assert TableLinked(a, roles, t) && EntryLinked(a, roles, roles[t], i, a.At(t, i));
    forall r: nat, w: Virt, k: nat | IsRoot(roles, r) && k <= 3
      ensures FlagsAt(a.Set(t, i, e).Extend(), r, 0, w, k) ==
              Marked(FlagsAt(a, r, 0, w, k), k, d <= k < d + 1 && Along(w, v, k) && SameWay(a, r, root, v))
    {
      FlagsAfterLink(a, roles, t, i, e, r, 0, w, k);
      WayEnds(a, roles, r, root, v, w);
      FlagsToLast(a, roles, r, 0, w, k);
    }
  }

  /** Where the pointer exists, there is nothing to mark. */
  lemma FlagsAsTheyWere(a: Arena, roles: seq<Role>, root: nat, v: Virt, d: nat)
    requires Linked(a, roles) && IsRoot(roles, root) && d <= 2 && Reach(a, root, v, d + 1) >= 0
    ensures FlagsAdded(a, roles, a, root, v, d, d + 1)
  {
    LastReach(a, root, v, d + 1);
    LastOnRoles(a, roles, root, v, d + 1);
    forall r: nat, w: Virt | IsRoot(roles, r) && Along(w, v, d) && SameWay(a, r, root, v)
      ensures FlagsAt(a, r, 0, w, d).present
    {
      FlagsToLast(a, roles, r, 0, v, d);
      SameAlong(a, roles, r, 0, v, w, d);
    }
  }

  /** The entry of `v` in its page table now has the flags `f`, in the spaces that share the page table. */
  ghost predicate FlagsStored(a: Arena, roles: seq<Role>, b: Arena, root: nat, v: Virt, f: Flags)
    requires |roles| == |a.tables| <= |b.tables| && IsRoot(roles, root)
  {
    forall r: nat, w: Virt, k: nat | IsRoot(roles, r) && k <= 3 ::
      FlagsAt(b, r, 0, w, k) ==
        if k == 3 && Along(w, v, 3) && SameWay(a, r, root, v) then f else FlagsAt(a, r, 0, w, k)
  }

  lemma FlagsAfterLeaf(a: Arena, roles: seq<Role>, root: nat, v: Virt, e: Entry)
    requires Linked(a, roles) && IsRoot(roles, root) && Reach(a, root, v, 3) >= 0
    ensures FlagsStored(a, roles, a.Set(Reach(a, root, v, 3), v.i1, e), root, v, e.flags)
    ensures FlagsAt(a, root, 0, v, 3) == a.At(Reach(a, root, v, 3), v.i1).flags
  {
    var t := Reach(a, root, v, 3);
    ReachOnRoles(a, roles, root, v, 3);
    LastReach(a, root, v, 3);
    FlagsToLast(a, roles, root, 0, v, 3);
    forall r: nat, w: Virt, k: nat | IsRoot(roles, r) && k <= 3
      ensures FlagsAt(a.Set(t, v.i1, e), r, 0, w, k) ==
              if k == 3 && Along(w, v, 3) && SameWay(a, r, root, v) then e.flags else FlagsAt(a, r, 0, w, k)
    {
      FlagsAfterStore(a, roles, t, v.i1, e, r, 0, w, k);
      WayEnds(a, roles, r, root, v, w);
    }
  }

  /** Spaces that share a page table find the same flags in it. */
  lemma SharedFlags(a: Arena, roles: seq<Role>, r: nat, root: nat, v: Virt, w: Virt)
    requires Linked(a, roles) && IsRoot(roles, r) && IsRoot(roles, root) && Reach(a, root, v, 3) >= 0
    requires SameWay(a, r, root, v) && Along(w, v, 3)
    ensures FlagsAt(a, r, 0, w, 3) == FlagsAt(a, root, 0, v, 3)
  {
    ReachOnRoles(a, roles, root, v, 3);
    LastReach(a, root, v, 3);
    FlagsToLast(a, roles, root, 0, v, 3);
    FlagsToLast(a, roles, r, 0, v, 3);
    SameAlong(a, roles, r, 0, v, w, 3);
  }

  /** Storing a leaf with present and RW added marks the leaf. */
  lemma LeafMarked(a: Arena, roles: seq<Role>, root: nat, v: Virt, e: Entry)
    requires Linked(a, roles) && IsRoot(roles, root) && Reach(a, root, v, 3) >= 0
    requires e.flags == a.At(Reach(a, root, v, 3), v.i1).flags.Or(PRESENT_RW)
    ensures FlagsAdded(a, roles, a.Set(Reach(a, root, v, 3), v.i1, e), root, v, 3, 4)
  {
    FlagsAfterLeaf(a, roles, root, v, e);
    forall r: nat, w: Virt | IsRoot(roles, r) && SameWay(a, r, root, v) && Along(w, v, 3)
      ensures FlagsAt(a, r, 0, w, 3) == FlagsAt(a, root, 0, v, 3)
    {
      SharedFlags(a, roles, r, root, v, w);
    }
  }

  /** In the user half nobody shares anything. */
  lemma UserWay(a: Arena, roles: seq<Role>, r: nat, root: nat, v: Virt)
    requires Linked(a, roles) && IsRoot(roles, r) && IsRoot(roles, root) && v.User()
    ensures SameWay(a, r, root, v) <==> r == root
  {
    LastOnRoles(a, roles, r, v, 0);
    LastOnRoles(a, roles, root, v, 0);
    var t := Last(a, r, 0, v);
    assert TableLinked(a, roles, r) && TableLinked(a, roles, root) && TableLinked(a, roles, t);
  }

  /** Hanging a fresh, empty table below an absent entry changes no walk. */
  lemma {:induction false} WalkAfterLink(a: Arena, roles: seq<Role>, t: nat, i: Index, e: Entry,
                                         root: nat, v: Virt, depth: nat)
    requires Linked(a, roles) && t < |roles| && roles[t].depth <= 2 && !a.At(t, i).flags.present
    requires e.flags.present && (roles[t].depth == 0 || !e.flags.ps) && e.page == a.base + |a.tables|
    requires IsRoot(roles, root) && depth <= 3 && Reach(a, root, v, depth) >= 0
    ensures Walk(a.Set(t, i, e).Extend(), Reach(a, root, v, depth), depth, v)
         == Walk(a, Reach(a, root, v, depth), depth, v)
    decreases 3 - depth
  {
    ReachOnRoles(a, roles, root, v, depth);
    var b := a.Set(t, i, e).Extend();
    var cur := Reach(a, root, v, depth);
    assert TableLinked(a, roles, cur);
    assert EntryLinked(a, roles, roles[cur], v.Slot(depth), a.At(cur, v.Slot(depth)));
    if cur == t && v.Slot(depth) == i {
      assert b.At(|a.tables|, v.Slot(depth + 1)) == ZERO_ENTRY;
    } else if depth < 3 && Reach(a, root, v, depth + 1) >= 0 {
      WalkAfterLink(a, roles, t, i, e, root, v, depth + 1);
    }
  }

  lemma LinkedAfterLink(a: Arena, roles: seq<Role>, t: nat, i: Index, e: Entry)
    requires Linked(a, roles) && t < |roles| && roles[t].depth <= 2 && !a.At(t, i).flags.present
    requires e.flags.present && e.flags.rw && (roles[t].depth == 0 || !e.flags.ps)
    requires e.page == a.base + |a.tables|
    ensures Linked(a.Set(t, i, e).Extend(), roles + [roles[t].Child(i)])
    ensures PointersKept(a, roles, a.Set(t, i, e).Extend())
  {
    var b, roles' := a.Set(t, i, e).Extend(), roles + [roles[t].Child(i)];
    assert TableLinked(a, roles, t);
    forall k: nat | k < |roles'|
      ensures TableLinked(b, roles', k)
    {
      if k < |roles| {
        assert TableLinked(a, roles, k);
      }
      forall j: Index ensures EntryLinked(b, roles', roles'[k], j, b.At(k, j)) {
        if k < |roles| {
          assert EntryLinked(a, roles, roles[k], j, a.At(k, j));
        }
      }
    }
  }

  // ---- address spaces ----------------------------------------------------

  /** An address space is named by its cr3: the physical page of its root table. */
  ghost predicate IsSpace(a: Arena, roles: seq<Role>, cr3: nat) {
    a.Holds(cr3) && IsRoot(roles, a.TableOf(cr3))
  }

  function Translate(a: Arena, cr3: nat, v: Virt): Translation {
    if a.Holds(cr3) then Observed(Walk(a, a.TableOf(cr3), 0, v)) else NotMapped
  }

  /** The table list only grew, and gained no root. */
  ghost predicate SameSpaces(roles: seq<Role>, roles': seq<Role>) {
    && |roles| <= |roles'|
    && (forall t: nat | t < |roles| :: roles'[t] == roles[t])
    && (forall t: nat | |roles| <= t < |roles'| :: roles'[t].depth > 0)
  }

  /** What every operation keeps: existing tables keep their roles and their pointers, and no address space
      appears. */
  ghost predicate Grown(a: Arena, roles: seq<Role>, b: Arena, roles': seq<Role>) {
    && |roles| == |a.tables| && |roles'| == |b.tables|
    && SameSpaces(roles, roles') && PointersKept(a, roles, b)
  }

  lemma GrownTrans(a: Arena, roles: seq<Role>, m: Arena, roles': seq<Role>, b: Arena, roles'': seq<Role>)
    requires Grown(a, roles, m, roles') && Grown(m, roles', b, roles'')
    ensures Grown(a, roles, b, roles'')
  {
  }

  lemma GrownSpace(a: Arena, roles: seq<Role>, b: Arena, roles': seq<Role>, cr3: nat)
    requires Grown(a, roles, b, roles') && IsSpace(a, roles, cr3)
    ensures IsSpace(b, roles', cr3)
  {
  }

  /** A translation is found in the page table that the pointers lead to. */
  lemma MappedReach(a: Arena, roles: seq<Role>, root: nat, v: Virt, depth: nat)
    requires Linked(a, roles) && IsRoot(roles, root) && depth <= 3 && Reach(a, root, v, depth) >= 0
    requires Walk(a, root, 0, v).Leaf? && Walk(a, root, 0, v).depth == 3
    ensures Reach(a, root, v, 3) == Walk(a, root, 0, v).table && Walk(a, root, 0, v).idx == v.i1
    decreases 3 - depth
  {
    ReachWalk(a, root, v, depth);
    ReachOnRoles(a, roles, root, v, depth);
    var cur := Reach(a, root, v, depth);
    assert TableLinked(a, roles, cur);
    assert EntryLinked(a, roles, roles[cur], v.Slot(depth), a.At(cur, v.Slot(depth)));
    if depth < 3 {
      MappedReach(a, roles, root, v, depth + 1);
    }
  }

  /** Storing into the page table slot of a user page is an update of that page of that space. */
  lemma StoreUserPage(a: Arena, roles: seq<Role>, cr3: nat, v: Virt, e: Entry, c: nat, w: Virt)
    requires Linked(a, roles) && IsSpace(a, roles, cr3) && IsSpace(a, roles, c)
    requires v.User() && Reach(a, a.TableOf(cr3), v, 3) >= 0
    ensures
      Translate(a.Set(Reach(a, a.TableOf(cr3), v, 3), v.i1, e), c, w) ==
      if c == cr3 && w.Page() == v.Page()
      then if e.flags.present then Mapped(e.page, e.flags.rw, 3) else NotMapped
      else Translate(a, c, w)
  {
    var root, t := a.TableOf(c), Reach(a, a.TableOf(cr3), v, 3);
    ReachOnRoles(a, roles, a.TableOf(cr3), v, 3);
    WalkAfterStore(a, roles, t, v.i1, e, root, w, 0);
    if Reach(a, root, w, 3) == t {
      TableUnique(a, roles, a.TableOf(cr3), v, root, w, 3);
    }
    if c == cr3 && w.Page() == v.Page() {
      ReachIgnoresOffset(a, root, v, w, 3);
    }
  }

  /** Storing into the page table slot of a kernel page changes that page only, in every space that shares
      the page table. */
  lemma StoreKernelPage(a: Arena, roles: seq<Role>, cr3: nat, v: Virt, e: Entry, c: nat, w: Virt)
    requires Linked(a, roles) && IsSpace(a, roles, cr3) && IsSpace(a, roles, c)
    requires !v.User() && Reach(a, a.TableOf(cr3), v, 3) >= 0
    ensures
      Translate(a.Set(Reach(a, a.TableOf(cr3), v, 3), v.i1, e), c, w) ==
      if w.Page() == v.Page() && Reach(a, a.TableOf(c), w, 3) == Reach(a, a.TableOf(cr3), v, 3)
      then if e.flags.present then Mapped(e.page, e.flags.rw, 3) else NotMapped
      else Translate(a, c, w)
  {
    var root, t := a.TableOf(c), Reach(a, a.TableOf(cr3), v, 3);
    ReachOnRoles(a, roles, a.TableOf(cr3), v, 3);
    WalkAfterStore(a, roles, t, v.i1, e, root, w, 0);
    if Reach(a, root, w, 3) == t {
      TableUnique(a, roles, a.TableOf(cr3), v, root, w, 3);
    }
  }

  lemma {:induction false} ReachIgnoresOffset(a: Arena, root: nat, v: Virt, w: Virt, k: nat)
    requires root < |a.tables| && k <= 3 && v.Page() == w.Page()
    ensures Reach(a, root, v, k) == Reach(a, root, w, k)
  {
    if k > 0 {
      ReachIgnoresOffset(a, root, v, w, k - 1);
    }
  }

  /** Two spaces whose PML4 slots hold the same pointer translate everything below it alike. */
  lemma SharedSlot(a: Arena, roles: seq<Role>, c: nat, d: nat, v: Virt)
    requires Linked(a, roles) && IsSpace(a, roles, c) && IsSpace(a, roles, d)
    requires
      var e, f := a.At(a.TableOf(c), v.i4), a.At(a.TableOf(d), v.i4);
      e.flags.present && f.flags.present && e.page == f.page
    ensures Translate(a, c, v) == Translate(a, d, v)
  {
  }
}
