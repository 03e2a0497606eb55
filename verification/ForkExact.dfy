/** `fork` ORs the source flags into the new table pointers, and the flag mask reaches into the address field
    (bit 12). Hence the fork of a mapped page is right if and only if no pointer on its path is diverted. */
module ForkExact {
  import opened PageTables
  import opened FrameTable
  import opened Cloning
  import opened Forking
  import opened ForkEffect

  /** The table of the clone that serves `v`. */
  function ClonePath(a: Arena, t: nat, d: nat, depth: nat, v: Virt): nat
    requires t < |a.tables| && depth <= 3
    decreases 3 - depth
  {
    var i := v.Slot(depth);
    if depth < 3 && HasChild(a, t, i) then ClonePath(a, ChildOf(a, t, i), Spot(a, t, d, depth, i), depth + 1, v) else d
  }

  /** Page numbers that only page tables have (the last one can be reached through bit 12). */
  predicate InArena(b: Arena, page: nat) { b.base <= page <= b.base + |b.tables| }

  /** The present entry `i` of the cloned table `k` is that of the source leaf of `w`. */
  predicate LeafAt(a: Arena, b: Arena, t: nat, d: nat, depth: nat, k: nat, i: Index, w: Virt)
    requires t < |a.tables| && depth <= 3 && k < |b.tables|
  {
    && w.i1 == i && w.Aligned() && ClonePath(a, t, d, depth, w) == k
    && Walk(a, t, depth, w).Leaf? && Walk(a, t, depth, w).entry.page == b.At(k, i).page
  }

  /** What the present entries of any table of a clone are. */
  lemma {:induction false} CloneEntry(a: Arena, roles0: seq<Role>, b: Arena, roles: seq<Role>, root: nat,
                                      t: nat, d: nat, depth: nat, r: Role, v: Virt, k: nat, i: Index) returns (w: Virt)
    requires Linked(a, roles0) && a.base == b.base && v.User()
    requires t < |a.tables| && 1 <= depth <= 3 && roles0[t] == RoleAt(root, v, depth) && r.depth == depth
    requires CloneOf(a, b, roles, t, d, depth, r)
    requires d <= k < d + Size(a, t, depth) && k < |b.tables| && b.At(k, i).flags.present
    ensures Below(w, v, depth)
    ensures InArena(b, b.At(k, i).page) || LeafAt(a, b, t, d, depth, k, i, w)
    decreases 3 - depth
  {
    if k == d {
      w := Virt(v.i4, v.i3, v.i2, i, 0);
      assert EntryCloned(a, b, t, d, depth, i);
      ClonedFields(a.At(t, i), if depth < 3 then b.base + Spot(a, t, d, depth, i) else 0);
      assert ChildCloned(a, b, roles, t, d, depth, r, i);
    } else {
      var j := FindSpot(a, t, d, depth, ENTRIES, k);
      assert TableLinked(a, roles0, t) && EntryLinked(a, roles0, roles0[t], j, a.At(t, j));
      assert EntryCloned(a, b, t, d, depth, j);
      w := CloneEntry(a, roles0, b, roles, root, ChildOf(a, t, j), Spot(a, t, d, depth, j), depth + 1, r.Child(j),
                      Descend(v, depth, j), k, i);
      assert w.Slot(depth) == j;
    }
  }

  lemma ForkEntry(g: Source, b: Arena, roles: seq<Role>, pages: Frames, k: nat, i: Index) returns (w: Virt)
    requires Finished(g, b, roles, pages) && |g.a.tables| < k < |b.tables| && b.At(k, i).flags.present
    ensures w.User()
    ensures InArena(b, b.At(k, i).page) || LeafAt(g.a, b, g.root, |g.a.tables|, 0, k, i, w)
  {
    hide Booked, Visited, Through;
    FinishedArena(g, b, roles, pages);
    var d := |g.a.tables|;
    var j := FindSpot(g.a, g.root, d, 0, USER_SLOTS, k);
    assert TableLinked(g.a, g.roles, g.root) && EntryLinked(g.a, g.roles, g.roles[g.root], j, g.a.At(g.root, j));
    assert RootEntryCloned(g.a, b, g.root, d, j);
    w := CloneEntry(g.a, g.roles, b, roles, g.root, ChildOf(g.a, g.root, j), Spot(g.a, g.root, d, 0, j), 1,
                    roles[d].Child(j), Descend(ORIGIN, 0, j), k, i);
  }

  /** No user page is mapped to a page table: true of every frame that comes from the page allocator. */
  ghost predicate FramesApart(pages: Frames, b: Arena) {
    forall f | f in pages :: !InArena(b, f)
  }

  /** The source tables on the way to a mapped user page. */
  datatype Path = Path(t1: nat, t2: nat, t3: nat)

  predicate IsPath(a: Arena, root: nat, v: Virt, p: Path)
    requires root < |a.tables|
  {
    && HasChild(a, root, v.i4) && p.t1 == ChildOf(a, root, v.i4)
    && HasChild(a, p.t1, v.i3) && p.t2 == ChildOf(a, p.t1, v.i3) && !a.At(p.t1, v.i3).flags.ps
    && HasChild(a, p.t2, v.i2) && p.t3 == ChildOf(a, p.t2, v.i2) && !a.At(p.t2, v.i2).flags.ps
    && a.At(p.t3, v.i1).flags.present
  }

  lemma FindPath(g: Source, v: Virt) returns (p: Path)
    requires g.Good() && v.User() && Walk(g.a, g.root, 0, v).Leaf?
    ensures IsPath(g.a, g.root, v, p) && Walk(g.a, g.root, 0, v) == Leaf(p.t3, v.i1, g.a.At(p.t3, v.i1), 3)
    ensures g.roles[p.t1] == RoleAt(g.root, v, 1) && g.roles[p.t2] == RoleAt(g.root, v, 2)
  {
    assert TableLinked(g.a, g.roles, g.root) && EntryLinked(g.a, g.roles, g.roles[g.root], v.i4, g.a.At(g.root, v.i4));
    var t1 := ChildOf(g.a, g.root, v.i4);
    assert TableLinked(g.a, g.roles, t1) && EntryLinked(g.a, g.roles, g.roles[t1], v.i3, g.a.At(t1, v.i3));
    var t2 := ChildOf(g.a, t1, v.i3);
    assert TableLinked(g.a, g.roles, t2) && EntryLinked(g.a, g.roles, g.roles[t2], v.i2, g.a.At(t2, v.i2));
    p := Path(t1, t2, ChildOf(g.a, t2, v.i2));
  }

  lemma PathWalk(a: Arena, root: nat, v: Virt, p: Path)
    requires root < |a.tables| && IsPath(a, root, v, p)
    ensures Walk(a, root, 0, v) == Leaf(p.t3, v.i1, a.At(p.t3, v.i1), 3)
  {
  }

  /** Two addresses of one space never share a frame. */
  lemma FrameAddress(g: Source, v: Virt, w: Virt)
    requires g.Good() && v.User() && w.User() && v.Aligned() && w.Aligned()
    requires Walk(g.a, g.root, 0, v).Leaf? && Walk(g.a, g.root, 0, w).Leaf?
    ensures Walk(g.a, g.root, 0, v).entry.page in g.pages
    ensures Walk(g.a, g.root, 0, v).entry.page == Walk(g.a, g.root, 0, w).entry.page ==> v == w
  {
    var s, f := g.State(), Walk(g.a, g.root, 0, v).entry.page;
    LeafRecord(s, g.Cr3(), v);
    LeafRecord(s, g.Cr3(), w);
    HomeOf(s.pages[f], Alias(g.Cr3(), v));
  }

  /** The clones on the way. */
  lemma ClonedPath(g: Source, b: Arena, roles: seq<Role>, pages: Frames, v: Virt, p: Path)
    returns (s1: nat, s2: nat, s3: nat)
    requires Finished(g, b, roles, pages) && v.User() && IsPath(g.a, g.root, v, p)
    ensures s1 == Spot(g.a, g.root, |g.a.tables|, 0, v.i4)
    ensures s2 == Spot(g.a, p.t1, s1, 1, v.i3) && s3 == Spot(g.a, p.t2, s2, 2, v.i2)
    ensures s1 < |b.tables| && s2 < |b.tables| && |g.a.tables| < s3 < |b.tables| && b.base == g.a.base
    ensures b.At(|g.a.tables|, v.i4) == RootPointer(g.a.At(g.root, v.i4), b.base + s1)
    ensures b.At(s1, v.i3) == ClonedPointer(g.a.At(p.t1, v.i3), b.base + s2)
    ensures b.At(s2, v.i2) == ClonedPointer(g.a.At(p.t2, v.i2), b.base + s3)
    ensures CloneOf(g.a, b, roles, p.t2, s2, 2, Role(|g.a.tables|, 2, v.i4, v.i3, 0))
    ensures ClonePath(g.a, g.root, |g.a.tables|, 0, v) == s3
  {
    var d := |g.a.tables|;
    s1 := Spot(g.a, g.root, d, 0, v.i4);
    s2 := Spot(g.a, p.t1, s1, 1, v.i3);
    s3 := Spot(g.a, p.t2, s2, 2, v.i2);
    assert RootEntryCloned(g.a, b, g.root, d, v.i4);
    assert CloneOf(g.a, b, roles, p.t1, s1, 1, Role(d, 1, v.i4, 0, 0));
    assert EntryCloned(g.a, b, p.t1, s1, 1, v.i3);
    assert CloneOf(g.a, b, roles, p.t2, s2, 2, Role(d, 2, v.i4, v.i3, 0));
    assert EntryCloned(g.a, b, p.t2, s2, 2, v.i2);
    assert ClonePath(g.a, p.t2, s2, 2, v) == s3;
    assert ClonePath(g.a, p.t1, s1, 1, v) == s3;
  }

  /** A diverted page-directory pointer leads to the first page table of the clone, read as a directory. */
  lemma DivertedDirectory(g: Source, b: Arena, roles: seq<Role>, pages: Frames, v: Virt, p: Path, s2: nat)
    requires Finished(g, b, roles, pages) && FramesApart(g.pages, b) && v.User() && IsPath(g.a, g.root, v, p)
    requires CloneOf(g.a, b, roles, p.t2, s2, 2, Role(|g.a.tables|, 2, v.i4, v.i3, 0))
    ensures s2 + 1 < |b.tables|
    ensures var w := Observed(Walk(b, s2 + 1, 2, v)); !w.Mapped? || w.depth == 2
  {
    hide Booked, Visited, Linked, ForkOf;
    SpotRoom(g.a, p.t2, s2, 2, v.i2, ENTRIES);
    var j := FirstTable(g.a, b, roles, p.t2, s2, Role(|g.a.tables|, 2, v.i4, v.i3, 0), v.i2);
    var e := g.a.At(ChildOf(g.a, p.t2, j), v.i2);
    if e.flags.present {
      ClonedFields(e, 0);
      LeafFrame(g, v, p, j, v.i2);
      assert !b.Holds(e.page);
      assert b.At(s2 + 1, v.i2) == e.SetRw(false);
    }
  }

  /** A cloned directory with a page table is followed by its first page table. */
  lemma FirstTable(a: Arena, b: Arena, roles: seq<Role>, t: nat, d: nat, r: Role, i: Index) returns (j: Index)
    requires t < |a.tables| && r.depth == 2 && CloneOf(a, b, roles, t, d, 2, r) && Size(a, t, 2) > 1
    ensures HasChild(a, t, j) && d + 1 < |b.tables|
    ensures EntryCloned(a, b, ChildOf(a, t, j), d + 1, 3, i)
  {
    j := FindSpot(a, t, d, 2, ENTRIES, d + 1);
    assert EntryCloned(a, b, t, d, 2, j);
  }

  /** The frames behind a page table of the source are on record. */
  lemma LeafFrame(g: Source, v: Virt, p: Path, j: Index, i: Index)
    requires g.Good() && v.User() && IsPath(g.a, g.root, v, p) && HasChild(g.a, p.t2, j)
    requires g.a.At(ChildOf(g.a, p.t2, j), i).flags.present
    ensures g.a.At(ChildOf(g.a, p.t2, j), i).page in g.pages
  {
    var w := Virt(v.i4, v.i3, j, i, 0);
    NoLargePage(g, v, p, j);
    PathWalk(g.a, g.root, w, Path(p.t1, p.t2, ChildOf(g.a, p.t2, j)));
    LeafRecord(g.State(), g.Cr3(), w);
  }

  lemma NoLargePage(g: Source, v: Virt, p: Path, j: Index)
    requires g.Good() && v.User() && IsPath(g.a, g.root, v, p)
    ensures !g.a.At(p.t2, j).flags.ps
  {
    assert TableLinked(g.a, g.roles, g.root) && EntryLinked(g.a, g.roles, g.roles[g.root], v.i4, g.a.At(g.root, v.i4));
    assert TableLinked(g.a, g.roles, p.t1) && EntryLinked(g.a, g.roles, g.roles[p.t1], v.i3, g.a.At(p.t1, v.i3));
    assert TableLinked(g.a, g.roles, p.t2) && EntryLinked(g.a, g.roles, g.roles[p.t2], j, g.a.At(p.t2, j));
  }

  /** A diverted page-table pointer leads to the next table, which maps `v` to a different frame if at all. */
  lemma DivertedTable(g: Source, b: Arena, roles: seq<Role>, pages: Frames, v: Virt, p: Path, s3: nat)
    requires Finished(g, b, roles, pages) && FramesApart(g.pages, b) && v.User() && v.Aligned()
    requires IsPath(g.a, g.root, v, p) && ClonePath(g.a, g.root, |g.a.tables|, 0, v) == s3
    requires |g.a.tables| < s3 && s3 + 1 < |b.tables|
    ensures var w := Observed(Walk(b, s3 + 1, 3, v)); w.Mapped? ==> w.page != g.a.At(p.t3, v.i1).page
  {
    hide Booked, Visited, ForkOf, TableLinked, Prefix, Through, ClonePath;
    var q := b.At(s3 + 1, v.i1);
    PathWalk(g.a, g.root, v, p);
    FrameAddress(g, v, v);
    if q.flags.present {
      var w := ForkEntry(g, b, roles, pages, s3 + 1, v.i1);
      if !InArena(b, q.page) {
        FrameAddress(g, v, w);
      }
    }
  }

  /** The fork of a mapped user page translates like the page itself (to the same frame, read-only) if and
      only if its path is aligned. */
  lemma ForkExactness(g: Source, b: Arena, roles: seq<Role>, pages: Frames, v: Virt)
    requires Finished(g, b, roles, pages) && FramesApart(g.pages, b)
    requires v.User() && v.Aligned() && Translate(g.a, g.Cr3(), v).Mapped?
    ensures Translate(b, g.child, v) == ReadOnly(Translate(g.a, g.Cr3(), v)) <==>
              PathAligned(g.a, g.root, |g.a.tables|, 0, v)
  {
    hide Booked, Visited, ForkOf, Walk, Prefix, PathAligned, TableLinked, FramesApart;
    FinishedArena(g, b, roles, pages);
    var d := |g.a.tables|;
    if PathAligned(g.a, g.root, d, 0, v) {
      AlignedFork(g.a, g.roles, b, roles, g.root, d, v);
    } else {
      MisalignedFork(g, b, roles, pages, v);
    }
  }

  lemma MisalignedFork(g: Source, b: Arena, roles: seq<Role>, pages: Frames, v: Virt)
    requires Finished(g, b, roles, pages) && FramesApart(g.pages, b)
    requires v.User() && v.Aligned() && Translate(g.a, g.Cr3(), v).Mapped?
    requires !PathAligned(g.a, g.root, |g.a.tables|, 0, v)
    ensures Translate(b, g.child, v) != ReadOnly(Translate(g.a, g.Cr3(), v))
  {
    hide Booked, Visited, CloneOf, PathAligned, ForkOf, Linked, Walk, Prefix, Spot, ClonePath, FramesApart;
    var d := |g.a.tables|;
    var p := FindPath(g, v);
    var s1, s2, s3 := ClonedPath(g, b, roles, pages, v, p);
    PathCases(g.a, g.root, d, v, p, s1, s2, s3);
    ClonedStep(b, d, 0, v, g.a.At(g.root, v.i4), b.base + s1);
    ClonedStep(b, s1, 1, v, g.a.At(p.t1, v.i3), b.base + s2);
    if !ParityKept(g.a.At(p.t1, v.i3).page, b.base + s2) {
      DivertedDirectory(g, b, roles, pages, v, p, s2);
    } else {
      ClonedStep(b, s2, 2, v, g.a.At(p.t2, v.i2), b.base + s3);
      if s3 + 1 < |b.tables| {
        DivertedTable(g, b, roles, pages, v, p, s3);
      }
    }
  }

  /** A step of a walk through a cloned pointer. */
  lemma ClonedStep(b: Arena, t: nat, depth: nat, v: Virt, e: Entry, page: nat)
    requires t < |b.tables| && depth <= 2 && e.flags.present && (depth == 0 || !e.flags.ps)
    requires b.At(t, v.Slot(depth)) == if depth == 0 then RootPointer(e, page) else ClonedPointer(e, page)
    ensures
      var q := if depth == 0 || ParityKept(e.page, page) then page else page + 1;
      Walk(b, t, depth, v) == if b.Holds(q) then Walk(b, b.TableOf(q), depth + 1, v) else Wild
  {
  }

  lemma PathCases(a: Arena, root: nat, d: nat, v: Virt, p: Path, s1: nat, s2: nat, s3: nat)
    requires root < |a.tables| && IsPath(a, root, v, p)
    requires s1 == Spot(a, root, d, 0, v.i4) && s2 == Spot(a, p.t1, s1, 1, v.i3) && s3 == Spot(a, p.t2, s2, 2, v.i2)
    ensures PathAligned(a, root, d, 0, v) <==>
            ParityKept(a.At(p.t1, v.i3).page, a.base + s2) && ParityKept(a.At(p.t2, v.i2).page, a.base + s3)
  {
  }

  // ---- a space whose fork goes wrong -------------------------------------

  const PAGE_1 := Virt(0, 0, 0, 1, 0)
  const PAGE_2 := Virt(0, 0, 1, 1, 0)

  /** Two pages, 2 MiB apart: tables 0 to 2 lead to the page tables 3 and 4. */
  function OddSpace(): Source {
    Source(Arena(0, [OneEntry(0, 1), OneEntry(0, 2), OneEntry(0, 3)[1 := Entry(PRESENT_RW, 4)],
                     OneEntry(1, 100), OneEntry(1, 101)]),
           [Role(0, 0, 0, 0, 0), Role(0, 1, 0, 0, 0), Role(0, 2, 0, 0, 0), Role(0, 3, 0, 0, 0), Role(0, 3, 0, 0, 1)],
           map[100 := Fresh(Alias(0, PAGE_1)), 101 := Fresh(Alias(0, PAGE_2))], 0, 5)
  }

  lemma OddWalk(v: Virt)
    ensures Walk(OddSpace().a, 0, 0, v) ==
              if v.Page() == PAGE_1 then Leaf(3, 1, Entry(PRESENT_RW, 100), 3)
              else if v.Page() == PAGE_2 then Leaf(4, 1, Entry(PRESENT_RW, 101), 3)
              else Unmapped
  {
  }

  lemma OddEntry(k: nat, i: Index)
    requires k < 5
    ensures |OddSpace().a.tables| == |OddSpace().roles| == 5 && OddSpace().a.base == 0
    ensures OddSpace().a.At(k, i) ==
              if k < 3 && i == 0 then Entry(PRESENT_RW, k + 1)
              else if k == 2 && i == 1 then Entry(PRESENT_RW, 4)
              else if k > 2 && i == 1 then Entry(PRESENT_RW, 97 + k)
              else ZERO_ENTRY
    ensures OddSpace().roles[k] == if k < 4 then Role(0, k, 0, 0, 0) else Role(0, 3, 0, 0, 1)
  {
  }

  lemma OddLinked()
    ensures Linked(OddSpace().a, OddSpace().roles)
  {
    hide OddSpace;
    var g := OddSpace();
    OddEntry(0, 0);
    OddEntry(1, 0);
    OddEntry(2, 0);
    OddEntry(3, 0);
    OddEntry(4, 0);
    forall k: nat | k < 5
      ensures TableLinked(g.a, g.roles, k)
    {
      forall i: Index ensures EntryLinked(g.a, g.roles, g.roles[k], i, g.a.At(k, i)) {
        OddEntry(k, i);
      }
    }
  }

  lemma OddGood()
    ensures OddSpace().Good()
  {
    hide Linked, Walk;
    var g := OddSpace();
    OddLinked();
    OddWalk(PAGE_1);
    OddWalk(PAGE_2);
    var s := g.State();
    forall c: nat, v: Virt | c in s.view.spaces && v.User() && v.Aligned()
      ensures LeafBooked(s.pages, Alias(c, v), s.view.at(c, v))
    {
      OddWalk(v);
    }
  }

  lemma FirstSpot(a: Arena, t: nat, d: nat, depth: nat, i: Index)
    requires t < |a.tables| && depth <= 2 && i == 0
    ensures Spot(a, t, d, depth, i) == d + 1
  {
  }

  lemma OddPath(v: Virt)
    requires v == PAGE_1
    ensures |OddSpace().a.tables| == 5 && OddSpace().a.base == 0 && IsPath(OddSpace().a, 0, v, Path(1, 2, 3))
    ensures OddSpace().a.At(1, v.i3).page == 2 && OddSpace().a.At(2, v.i2).page == 3
  {
  }

  /** The page table 3 is cloned to table 8, and the pointer to it is diverted to 9. */
  lemma OddDiverted(v: Virt)
    requires v == PAGE_1
    ensures !PathAligned(OddSpace().a, 0, 5, 0, v)
  {
    hide PathAligned, Spot, OddSpace, IsPath;
    OddPath(v);
    var a := OddSpace().a;
    FirstSpot(a, 0, 5, 0, v.i4);
    FirstSpot(a, 1, 6, 1, v.i3);
    FirstSpot(a, 2, 7, 2, v.i2);
    PathCases(a, 0, 5, v, Path(1, 2, 3), 6, 7, 8);
  }

  lemma OddShape()
    ensures OddSpace().root == 0 && OddSpace().Cr3() == 0 && OddSpace().child == 5 && |OddSpace().a.tables| == 5
  {
  }

  lemma OddPage(v: Virt)
    requires v == PAGE_1
    ensures Translate(OddSpace().a, 0, v) == Mapped(100, true, 3)
  {
    hide Walk;
    OddWalk(v);
  }

  /** Whatever a fork of this space does, the child does not have the first page. */
  lemma OddFork(b: Arena, roles: seq<Role>, pages: Frames)
    requires Finished(OddSpace(), b, roles, pages) && FramesApart(OddSpace().pages, b)
    ensures Translate(OddSpace().a, 0, PAGE_1) == Mapped(100, true, 3)
    ensures Translate(b, 5, PAGE_1) != Mapped(100, false, 3)
  {
    hide OddSpace, PathAligned, Finished, FramesApart, Translate;
    OddShape();
    OddPage(PAGE_1);
    OddDiverted(PAGE_1);
    ForkExactness(OddSpace(), b, roles, pages, PAGE_1);
  }
}
