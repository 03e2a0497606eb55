/** What `fork` does to the tables: the layout of the cloned tree, and when it translates like its source. */
module Cloning {
  import opened PageTables

  // ---- how many tables a subtree needs -----------------------------------

  /** The entry is a pointer to a subtree that the clone visits. */
  predicate HasChild(a: Arena, t: nat, i: Index)
    requires t < |a.tables|
  {
    a.At(t, i).flags.present && a.Holds(a.At(t, i).page)
  }

  function ChildOf(a: Arena, t: nat, i: Index): nat
    requires t < |a.tables| && HasChild(a, t, i)
    ensures ChildOf(a, t, i) < |a.tables|
  {
    a.TableOf(a.At(t, i).page)
  }

  /** The number of tables of the tree below and including `t`. */
  function Size(a: Arena, t: nat, depth: nat): nat
    requires t < |a.tables| && depth <= 3
    decreases 3 - depth, ENTRIES + 1
  {
    1 + if depth == 3 then 0 else Prefix(a, t, depth, ENTRIES)
  }

  /** The number of tables below the first `n` entries of `t`. */
  function Prefix(a: Arena, t: nat, depth: nat, n: nat): nat
    requires t < |a.tables| && depth <= 2 && n <= ENTRIES
    decreases 3 - depth, n
  {
    if n == 0 then 0
    else Prefix(a, t, depth, n - 1) + if HasChild(a, t, n - 1) then Size(a, ChildOf(a, t, n - 1), depth + 1) else 0
  }

  /** The number of tables that cloning the first `n` entries of `t` takes. */
  function Room(a: Arena, t: nat, depth: nat, n: nat): nat
    requires t < |a.tables| && depth <= 3 && n <= ENTRIES
  {
    if depth < 3 then Prefix(a, t, depth, n) else 0
  }

  /** Tables are handed out in order, parents before children: the subtree of entry `i` of the clone at `d`
      starts here. */
  function Spot(a: Arena, t: nat, d: nat, depth: nat, i: Index): nat
    requires t < |a.tables| && depth <= 2
  {
    d + 1 + Prefix(a, t, depth, i)
  }

  lemma PrefixStep(a: Arena, t: nat, depth: nat, i: Index)
    requires t < |a.tables| && depth <= 2 && HasChild(a, t, i)
    ensures Prefix(a, t, depth, i + 1) == Prefix(a, t, depth, i) + Size(a, ChildOf(a, t, i), depth + 1)
  {
  }

  /** The subtree of entry `i` lies within the room of the first `n` entries. */
  lemma SpotRoom(a: Arena, t: nat, d: nat, depth: nat, i: Index, n: nat)
    requires t < |a.tables| && depth <= 2 && i < n <= ENTRIES && HasChild(a, t, i)
    ensures d < Spot(a, t, d, depth, i)
    ensures Spot(a, t, d, depth, i) + Size(a, ChildOf(a, t, i), depth + 1) <= d + 1 + Prefix(a, t, depth, n)
  {
  }

  /** Every table of the room belongs to the subtree of some entry. */
  lemma {:induction false} FindSpot(a: Arena, t: nat, d: nat, depth: nat, n: nat, k: nat) returns (i: Index)
    requires t < |a.tables| && depth <= 2 && n <= ENTRIES
    requires d < k < d + 1 + Prefix(a, t, depth, n)
    ensures i < n && HasChild(a, t, i)
    ensures Spot(a, t, d, depth, i) <= k < Spot(a, t, d, depth, i) + Size(a, ChildOf(a, t, i), depth + 1)
  {
    if k < d + 1 + Prefix(a, t, depth, n - 1) {
      i := FindSpot(a, t, d, depth, n - 1, k);
    } else {
      i := n - 1;
    }
  }

  // ---- the entries of the clone ------------------------------------------

  /** A leaf: address, flags, then RW cleared. */
  function ClonedLeaf(e: Entry): Entry {
    ZERO_ENTRY.SetAddr(e.page).SetFlags(e.GetFlags()).SetRw(false)
  }

  /** A pointer below the root: address, then flags (with bit 12 of the source address among them), then RW. */
  function ClonedPointer(e: Entry, page: nat): Entry {
    ZERO_ENTRY.SetAddr(page).SetFlags(e.GetFlags()).SetRw(true)
  }

  /** A user pointer of the root: flags first, then the address. */
  function RootPointer(e: Entry, page: nat): Entry {
    ZERO_ENTRY.SetFlags(e.GetFlags()).SetAddr(page)
  }

  /** A kernel pointer of the root. */
  function KernelPointer(e: Entry): Entry {
    ZERO_ENTRY.SetAddr(e.page).SetFlags(e.GetFlags())
  }

  lemma ClonedFields(e: Entry, page: nat)
    requires e.flags.present
    ensures ClonedLeaf(e) == e.SetRw(false) && KernelPointer(e) == e
    ensures RootPointer(e, page) == Entry(e.flags, page)
    ensures ClonedPointer(e, page) == Entry(e.flags.(rw := true), if e.page % 2 == 1 then SetLowBit(page) else page)
  {
  }

  predicate EntryCloned(a: Arena, b: Arena, t: nat, d: nat, depth: nat, i: Index)
    requires t < |a.tables| && d < |b.tables| && 1 <= depth <= 3
  {
    var e, g := a.At(t, i), b.At(d, i);
    if !e.flags.present then g == ZERO_ENTRY
    else if depth == 3 then g == ClonedLeaf(e)
    else HasChild(a, t, i) && g == ClonedPointer(e, b.base + Spot(a, t, d, depth, i))
  }

  /** The tree at `d` of `b` is the clone of the tree at `t` of `a`, at the place `r`. */
  ghost predicate CloneOf(a: Arena, b: Arena, roles: seq<Role>, t: nat, d: nat, depth: nat, r: Role)
    requires t < |a.tables| && 1 <= depth <= 3 && r.depth == depth
    decreases 3 - depth, 1
  {
    && |roles| == |b.tables| && d < |roles| && roles[d] == r
    && forall i: Index {:trigger EntryCloned(a, b, t, d, depth, i)} ::
         EntryCloned(a, b, t, d, depth, i) && ChildCloned(a, b, roles, t, d, depth, r, i)
  }

  ghost predicate ChildCloned(a: Arena, b: Arena, roles: seq<Role>, t: nat, d: nat, depth: nat, r: Role, i: Index)
    requires t < |a.tables| && depth <= 3 && r.depth == depth
    decreases 3 - depth, 0
  {
    depth < 3 && HasChild(a, t, i) ==>
      CloneOf(a, b, roles, ChildOf(a, t, i), Spot(a, t, d, depth, i), depth + 1, r.Child(i))
  }

  ghost predicate SameTables(b: Arena, roles: seq<Role>, b': Arena, roles': seq<Role>, lo: nat, hi: nat) {
    && b.base == b'.base && |roles| == |b.tables| <= |b'.tables| == |roles'| && hi <= |roles|
    && (forall k: nat | lo <= k < hi :: b'.tables[k] == b.tables[k] && roles'[k] == roles[k])
  }

  lemma EntryFrame(a: Arena, b: Arena, b': Arena, t: nat, d: nat, depth: nat, i: Index)
    requires t < |a.tables| && d < |b.tables| && d < |b'.tables| && 1 <= depth <= 3
    requires b.base == b'.base && b'.At(d, i) == b.At(d, i) && EntryCloned(a, b, t, d, depth, i)
    ensures EntryCloned(a, b', t, d, depth, i)
  {
  }

  /** A clone is a matter of its own tables only. */
  lemma {:induction false} CloneFrame(a: Arena, b: Arena, roles: seq<Role>, b': Arena, roles': seq<Role>,
                                      t: nat, d: nat, depth: nat, r: Role)
    requires t < |a.tables| && 1 <= depth <= 3 && r.depth == depth
    requires CloneOf(a, b, roles, t, d, depth, r)
    requires SameTables(b, roles, b', roles', d, d + Size(a, t, depth))
    ensures CloneOf(a, b', roles', t, d, depth, r)
    decreases 3 - depth, 1
  {
    hide EntryCloned, Prefix, HasChild;
    forall i: Index
      ensures EntryCloned(a, b', t, d, depth, i) && ChildCloned(a, b', roles', t, d, depth, r, i)
    {
      EntryFrame(a, b, b', t, d, depth, i);
      if depth < 3 {
        ChildFrame(a, b, roles, b', roles', t, d, depth, r, ENTRIES, i);
      }
    }
  }

  lemma {:induction false} ChildFrame(a: Arena, b: Arena, roles: seq<Role>, b': Arena, roles': seq<Role>,
                                      t: nat, d: nat, depth: nat, r: Role, n: nat, i: Index)
    requires t < |a.tables| && depth < 3 && r.depth == depth && i < n <= ENTRIES
    requires ChildCloned(a, b, roles, t, d, depth, r, i)
    requires SameTables(b, roles, b', roles', d + 1, d + 1 + Prefix(a, t, depth, n))
    ensures ChildCloned(a, b', roles', t, d, depth, r, i)
    decreases 3 - depth, 0
  {
    if HasChild(a, t, i) {
      SpotRoom(a, t, d, depth, i, n);
      CloneFrame(a, b, roles, b', roles', ChildOf(a, t, i), Spot(a, t, d, depth, i), depth + 1, r.Child(i));
    }
  }

  /** The first `n` entries are cloned, the rest of the table is still empty. */
  ghost predicate ClonePrefix(a: Arena, b: Arena, roles: seq<Role>, t: nat, d: nat, depth: nat, r: Role, n: nat)
    requires t < |a.tables| && 1 <= depth <= 3 && r.depth == depth
  {
    && |roles| == |b.tables| && d < |roles| && roles[d] == r && n <= ENTRIES
    && (forall i: Index {:trigger EntryCloned(a, b, t, d, depth, i)} | i < n ::
          EntryCloned(a, b, t, d, depth, i) && ChildCloned(a, b, roles, t, d, depth, r, i))
    && Blank(b, d, n)
  }

  ghost predicate Blank(b: Arena, d: nat, n: nat)
    requires d < |b.tables|
  {
    forall i: Index | n <= i :: b.At(d, i) == ZERO_ENTRY
  }

  ghost predicate OthersKept(b: Arena, b': Arena, d: nat, n: nat) {
    d < |b.tables| && d < |b'.tables| && forall i: Index | i != n :: b'.At(d, i) == b.At(d, i)
  }

  lemma BlankStep(b: Arena, b': Arena, d: nat, n: nat)
    requires OthersKept(b, b', d, n) && Blank(b, d, n)
    ensures Blank(b', d, n + 1)
  {
  }

  lemma ClonePrefixStep(a: Arena, b: Arena, roles: seq<Role>, b': Arena, roles': seq<Role>,
                        t: nat, d: nat, depth: nat, r: Role, n: Index)
    requires t < |a.tables| && 1 <= depth <= 3 && r.depth == depth
    requires ClonePrefix(a, b, roles, t, d, depth, r, n)
    requires SameTables(b, roles, b', roles', d + 1, d + 1 + Room(a, t, depth, n))
    requires roles'[d] == roles[d] && OthersKept(b, b', d, n)
    requires EntryCloned(a, b', t, d, depth, n) && ChildCloned(a, b', roles', t, d, depth, r, n)
    ensures ClonePrefix(a, b', roles', t, d, depth, r, n + 1)
  {
    hide ChildCloned, Prefix, EntryCloned, CloneOf, Blank;
    BlankStep(b, b', d, n);
    forall i: Index | i < n
      ensures EntryCloned(a, b', t, d, depth, i) && ChildCloned(a, b', roles', t, d, depth, r, i)
    {
      assert EntryCloned(a, b, t, d, depth, i);
      ClonedStays(a, b, roles, b', roles', t, d, depth, r, n, i);
    }
  }

  lemma ClonedStays(a: Arena, b: Arena, roles: seq<Role>, b': Arena, roles': seq<Role>,
                    t: nat, d: nat, depth: nat, r: Role, n: nat, i: Index)
    requires t < |a.tables| && 1 <= depth <= 3 && r.depth == depth && i < n <= ENTRIES
    requires SameTables(b, roles, b', roles', d + 1, d + 1 + Room(a, t, depth, n)) && d < |roles|
    requires b'.At(d, i) == b.At(d, i)
    requires EntryCloned(a, b, t, d, depth, i) && ChildCloned(a, b, roles, t, d, depth, r, i)
    ensures EntryCloned(a, b', t, d, depth, i) && ChildCloned(a, b', roles', t, d, depth, r, i)
  {
    hide ChildCloned, Prefix, EntryCloned, CloneOf;
    EntryFrame(a, b, b', t, d, depth, i);
    if depth < 3 {
      ChildFrame(a, b, roles, b', roles', t, d, depth, r, n, i);
    } else {
      LeafHasNoChild(a, b', roles', t, d, r, i);
    }
  }

  lemma CloneStart(a: Arena, b: Arena, roles: seq<Role>, t: nat, d: nat, depth: nat, r: Role)
    requires t < |a.tables| && 1 <= depth <= 3 && r.depth == depth
    requires |roles| == |b.tables| && d < |roles| && roles[d] == r && b.tables[d] == ZeroTable()
    ensures ClonePrefix(a, b, roles, t, d, depth, r, 0) && Room(a, t, depth, 0) == 0
  {
  }

  lemma CloneDone(a: Arena, b: Arena, roles: seq<Role>, t: nat, d: nat, depth: nat, r: Role)
    requires t < |a.tables| && 1 <= depth <= 3 && r.depth == depth
    requires ClonePrefix(a, b, roles, t, d, depth, r, ENTRIES)
    ensures CloneOf(a, b, roles, t, d, depth, r) && Size(a, t, depth) == 1 + Room(a, t, depth, ENTRIES)
  {
  }

  lemma LeafHasNoChild(a: Arena, b: Arena, roles: seq<Role>, t: nat, d: nat, r: Role, i: Index)
    requires t < |a.tables| && r.depth == 3
    ensures ChildCloned(a, b, roles, t, d, 3, r, i)
  {
  }

  predicate RootEntryCloned(a: Arena, b: Arena, root: nat, d: nat, i: Index)
    requires root < |a.tables| && d < |b.tables|
  {
    var e, g := a.At(root, i), b.At(d, i);
    if !e.flags.present then g == ZERO_ENTRY
    else if i < USER_SLOTS then HasChild(a, root, i) && g == RootPointer(e, b.base + Spot(a, root, d, 0, i))
    else g == KernelPointer(e)
  }

  /** The space at `d` is the fork of the space at `root`: the user half is cloned, the kernel half shared. */
  ghost predicate ForkOf(a: Arena, b: Arena, roles: seq<Role>, root: nat, d: nat)
    requires root < |a.tables|
  {
    && |roles| == |b.tables| && d < |roles| && roles[d] == Role(d, 0, 0, 0, 0)
    && forall i: Index {:trigger RootEntryCloned(a, b, root, d, i)} ::
         RootEntryCloned(a, b, root, d, i) && (i < USER_SLOTS ==> ChildCloned(a, b, roles, root, d, 0, roles[d], i))
  }

  /** The kernel half is shared, the first `n` user entries are cloned, the rest of the user half is still empty. */
  ghost predicate ForkPrefix(a: Arena, b: Arena, roles: seq<Role>, root: nat, d: nat, n: nat)
    requires root < |a.tables|
  {
    && |roles| == |b.tables| && d < |roles| && roles[d] == Role(d, 0, 0, 0, 0) && n <= USER_SLOTS
    && (forall i: Index {:trigger RootEntryCloned(a, b, root, d, i)} | i < n ::
          RootEntryCloned(a, b, root, d, i) && ChildCloned(a, b, roles, root, d, 0, roles[d], i))
    && (forall i: Index | n <= i < USER_SLOTS :: b.At(d, i) == ZERO_ENTRY)
    && (forall i: Index | USER_SLOTS <= i :: RootEntryCloned(a, b, root, d, i))
  }

  lemma RootEntryFrame(a: Arena, b: Arena, b': Arena, root: nat, d: nat, i: Index)
    requires root < |a.tables| && d < |b.tables| && d < |b'.tables|
    requires b.base == b'.base && b'.At(d, i) == b.At(d, i) && RootEntryCloned(a, b, root, d, i)
    ensures RootEntryCloned(a, b', root, d, i)
  {
  }

  lemma ForkSlot(a: Arena, b: Arena, roles: seq<Role>, root: nat, d: nat, n: Index)
    requires root < |a.tables| && n < USER_SLOTS && ForkPrefix(a, b, roles, root, d, n)
    ensures |roles| == |b.tables| && d < |roles| && roles[d] == Role(d, 0, 0, 0, 0) && b.At(d, n) == ZERO_ENTRY
  {
  }

  lemma ForkDone(a: Arena, b: Arena, roles: seq<Role>, root: nat, d: nat)
    requires root < |a.tables| && ForkPrefix(a, b, roles, root, d, USER_SLOTS)
    ensures ForkOf(a, b, roles, root, d)
  {
  }

  lemma ForkPrefixStep(a: Arena, b: Arena, roles: seq<Role>, b': Arena, roles': seq<Role>, root: nat, d: nat, n: Index)
    requires root < |a.tables| && n < USER_SLOTS && ForkPrefix(a, b, roles, root, d, n)
    requires SameTables(b, roles, b', roles', d + 1, d + 1 + Prefix(a, root, 0, n))
    requires roles'[d] == roles[d] && OthersKept(b, b', d, n)
    requires RootEntryCloned(a, b', root, d, n) && ChildCloned(a, b', roles', root, d, 0, roles[d], n)
    ensures ForkPrefix(a, b', roles', root, d, n + 1)
  {
    hide ChildCloned, Prefix, RootEntryCloned;
    forall i: Index | i < n
      ensures RootEntryCloned(a, b', root, d, i) && ChildCloned(a, b', roles', root, d, 0, roles[d], i)
    {
      RootEntryFrame(a, b, b', root, d, i);
      ChildFrame(a, b, roles, b', roles', root, d, 0, roles[d], n, i);
    }
    forall i: Index | USER_SLOTS <= i
      ensures RootEntryCloned(a, b', root, d, i)
    {
      RootEntryFrame(a, b, b', root, d, i);
    }
  }

  // ---- when the clone translates like its source -------------------------

  /** ORing bit 12 of the source pointer into the new one does no harm. */
  predicate ParityKept(page: nat, page': nat) { page % 2 == 1 ==> page' % 2 == 1 }

  /** Along the walk to `v`, every pointer below the root that has bit 12 set is cloned to one that has it
      anyway. This depends only on the source tables and on the number of the next free table. */
  predicate PathAligned(a: Arena, t: nat, d: nat, depth: nat, v: Virt)
    requires t < |a.tables| && depth <= 3
    decreases 3 - depth
  {
    var i := v.Slot(depth);
    a.At(t, i).flags.present && depth < 3 ==>
      && HasChild(a, t, i)
      && (depth > 0 ==> ParityKept(a.At(t, i).page, a.base + Spot(a, t, d, depth, i)))
      && PathAligned(a, ChildOf(a, t, i), Spot(a, t, d, depth, i), depth + 1, v)
  }

  /** The same for every pointer of a subtree. */
  predicate TreeAligned(a: Arena, t: nat, d: nat, depth: nat)
    requires t < |a.tables| && 1 <= depth <= 3
    decreases 3 - depth
  {
    depth < 3 ==>
      forall i: Index {:trigger a.At(t, i)} | a.At(t, i).flags.present ::
        && HasChild(a, t, i)
        && ParityKept(a.At(t, i).page, a.base + Spot(a, t, d, depth, i))
        && TreeAligned(a, ChildOf(a, t, i), Spot(a, t, d, depth, i), depth + 1)
  }

  /** The condition under which a fork of `root`, with `d` the next free table, preserves the user half. */
  predicate ForkAligned(a: Arena, root: nat, d: nat)
    requires root < |a.tables|
  {
    forall i: Index {:trigger a.At(root, i)} | i < USER_SLOTS && a.At(root, i).flags.present ::
      HasChild(a, root, i) && TreeAligned(a, ChildOf(a, root, i), Spot(a, root, d, 0, i), 1)
  }

  lemma ForkPathAligned(a: Arena, root: nat, d: nat, v: Virt)
    requires root < |a.tables| && ForkAligned(a, root, d) && v.User()
    ensures PathAligned(a, root, d, 0, v)
  {
  }

  lemma {:induction false} AlignedWalk(a: Arena, roles0: seq<Role>, b: Arena, roles: seq<Role>,
                                       root: nat, t: nat, d: nat, depth: nat, r: Role, v: Virt)
    requires Linked(a, roles0) && a.base == b.base && v.User()
    requires t < |a.tables| && 1 <= depth <= 3 && r.depth == depth && roles0[t] == RoleAt(root, v, depth)
    requires CloneOf(a, b, roles, t, d, depth, r) && PathAligned(a, t, d, depth, v)
    ensures Observed(Walk(b, d, depth, v)) == ReadOnly(Observed(Walk(a, t, depth, v)))
    decreases 3 - depth
  {
    var i := v.Slot(depth);
    var e := a.At(t, i);
    assert TableLinked(a, roles0, t) && EntryLinked(a, roles0, roles0[t], i, e);
    assert EntryCloned(a, b, t, d, depth, i);
    if e.flags.present {
      ClonedFields(e, if depth < 3 then b.base + Spot(a, t, d, depth, i) else 0);
      if depth < 3 {
        AlignedWalk(a, roles0, b, roles, root, ChildOf(a, t, i), Spot(a, t, d, depth, i), depth + 1, r.Child(i), v);
      }
    }
  }

  /** A fork translates an address of the user half like its source, but read-only, if the path is aligned. */
  lemma AlignedFork(a: Arena, roles0: seq<Role>, b: Arena, roles: seq<Role>, root: nat, d: nat, v: Virt)
    requires Linked(a, roles0) && IsRoot(roles0, root) && a.base == b.base && v.User()
    requires ForkOf(a, b, roles, root, d) && PathAligned(a, root, d, 0, v)
    ensures Observed(Walk(b, d, 0, v)) == ReadOnly(Observed(Walk(a, root, 0, v)))
  {
    var i := v.i4;
    var e := a.At(root, i);
    assert TableLinked(a, roles0, root) && EntryLinked(a, roles0, roles0[root], i, e);
    assert RootEntryCloned(a, b, root, d, i);
    if e.flags.present {
      ClonedFields(e, b.base + Spot(a, root, d, 0, i));
      AlignedWalk(a, roles0, b, roles, root, ChildOf(a, root, i), Spot(a, root, d, 0, i), 1, Role(d, 1, i, 0, 0), v);
    }
  }

  /** Every table of an aligned clone is linked into its own tree. */
  lemma {:induction false} CloneLinked(a: Arena, roles0: seq<Role>, b: Arena, roles: seq<Role>,
                                       t: nat, d: nat, depth: nat, r: Role, k: nat)
    requires Linked(a, roles0) && a.base == b.base
    requires t < |a.tables| && 1 <= depth <= 3 && roles0[t].depth == depth == r.depth && roles0[t].space >= 0
    requires r.space >= 0
    requires CloneOf(a, b, roles, t, d, depth, r) && TreeAligned(a, t, d, depth)
    requires d <= k < d + Size(a, t, depth) && d + Size(a, t, depth) <= |roles|
    ensures TableLinked(b, roles, k) && roles[k].depth > 0
    decreases 3 - depth
  {
    hide CloneOf, TreeAligned, TableLinked, HasChild;
    if k == d {
      CloneRootLinked(a, roles0, b, roles, t, d, depth, r);
    } else {
      var i := FindSpot(a, t, d, depth, ENTRIES, k);
      CloneBelow(a, roles0, b, roles, t, d, depth, r, i);
      SpotRoom(a, t, d, depth, i, ENTRIES);
      CloneLinked(a, roles0, b, roles, ChildOf(a, t, i), Spot(a, t, d, depth, i), depth + 1, r.Child(i), k);
    }
  }

  lemma CloneBelow(a: Arena, roles0: seq<Role>, b: Arena, roles: seq<Role>, t: nat, d: nat, depth: nat, r: Role,
                   i: Index)
    requires Linked(a, roles0) && t < |a.tables| && 1 <= depth <= 2
    requires roles0[t].depth == depth == r.depth && roles0[t].space >= 0
    requires CloneOf(a, b, roles, t, d, depth, r) && TreeAligned(a, t, d, depth) && HasChild(a, t, i)
    ensures CloneOf(a, b, roles, ChildOf(a, t, i), Spot(a, t, d, depth, i), depth + 1, r.Child(i))
    ensures TreeAligned(a, ChildOf(a, t, i), Spot(a, t, d, depth, i), depth + 1)
    ensures roles0[ChildOf(a, t, i)].depth == depth + 1 && roles0[ChildOf(a, t, i)].space >= 0
  {
    assert EntryCloned(a, b, t, d, depth, i);
    assert TableLinked(a, roles0, t) && EntryLinked(a, roles0, roles0[t], i, a.At(t, i));
  }

  lemma CloneRootLinked(a: Arena, roles0: seq<Role>, b: Arena, roles: seq<Role>, t: nat, d: nat, depth: nat, r: Role)
    requires Linked(a, roles0) && a.base == b.base
    requires t < |a.tables| && 1 <= depth <= 3 && roles0[t].depth == depth == r.depth && roles0[t].space >= 0
    requires r.space >= 0
    requires CloneOf(a, b, roles, t, d, depth, r) && TreeAligned(a, t, d, depth)
    ensures TableLinked(b, roles, d) && roles[d] == r
  {
    hide EntryLinked, TreeAligned, Prefix, EntryCloned;
    forall i: Index
      ensures EntryLinked(b, roles, r, i, b.At(d, i))
    {
      CloneEntryLinked(a, roles0, b, roles, t, d, depth, r, i);
    }
  }

  lemma CloneEntryLinked(a: Arena, roles0: seq<Role>, b: Arena, roles: seq<Role>,
                         t: nat, d: nat, depth: nat, r: Role, i: Index)
    requires Linked(a, roles0) && a.base == b.base
    requires t < |a.tables| && 1 <= depth <= 3 && roles0[t].depth == depth == r.depth && roles0[t].space >= 0
    requires r.space >= 0
    requires CloneOf(a, b, roles, t, d, depth, r) && TreeAligned(a, t, d, depth)
    ensures EntryLinked(b, roles, r, i, b.At(d, i))
  {
    var e := a.At(t, i);
    assert EntryCloned(a, b, t, d, depth, i);
    assert TableLinked(a, roles0, t) && EntryLinked(a, roles0, roles0[t], i, e);
    if e.flags.present {
      ClonedFields(e, if depth < 3 then b.base + Spot(a, t, d, depth, i) else 0);
    }
  }

  lemma ForkRootLinked(a: Arena, roles0: seq<Role>, b: Arena, roles: seq<Role>, root: nat, d: nat)
    requires Linked(a, roles0) && IsRoot(roles0, root) && a.base == b.base && |a.tables| <= |b.tables|
    requires ForkOf(a, b, roles, root, d) && forall t: nat | t < |roles0| :: roles[t] == roles0[t]
    ensures TableLinked(b, roles, d)
  {
    hide TreeAligned, Prefix;
    forall i: Index
      ensures EntryLinked(b, roles, roles[d], i, b.At(d, i))
    {
      assert RootEntryCloned(a, b, root, d, i);
      assert TableLinked(a, roles0, root) && EntryLinked(a, roles0, roles0[root], i, a.At(root, i));
      if a.At(root, i).flags.present {
        ClonedFields(a.At(root, i), b.base + Spot(a, root, d, 0, i));
      }
    }
  }

  /** So is every table of an aligned fork. */
  lemma ForkLinked(a: Arena, roles0: seq<Role>, b: Arena, roles: seq<Role>, root: nat, d: nat, k: nat)
    requires Linked(a, roles0) && IsRoot(roles0, root) && a.base == b.base && |a.tables| <= |b.tables|
    requires ForkOf(a, b, roles, root, d) && ForkAligned(a, root, d) && d >= |a.tables|
    requires forall t: nat | t < |roles0| :: roles[t] == roles0[t]
    requires d <= k < d + 1 + Prefix(a, root, 0, USER_SLOTS) && d + 1 + Prefix(a, root, 0, USER_SLOTS) <= |roles|
    ensures TableLinked(b, roles, k) && (k > d ==> roles[k].depth > 0)
  {
    hide CloneOf, TreeAligned;
    if k == d {
      ForkRootLinked(a, roles0, b, roles, root, d);
    } else {
      var i := FindSpot(a, root, d, 0, USER_SLOTS, k);
      assert RootEntryCloned(a, b, root, d, i);
      assert TableLinked(a, roles0, root) && EntryLinked(a, roles0, roles0[root], i, a.At(root, i));
      SpotRoom(a, root, d, 0, i, USER_SLOTS);
      CloneLinked(a, roles0, b, roles, ChildOf(a, root, i), Spot(a, root, d, 0, i), 1, Role(d, 1, i, 0, 0), k);
    }
  }
}
