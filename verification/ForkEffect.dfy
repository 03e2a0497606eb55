/** What `fork` amounts to on address spaces: the child maps the parent's user pages, both read-only, and
    shares the kernel half; nobody else notices. */
module ForkEffect {
  import opened PageTables
  import opened FrameTable
  import opened Cloning
  import opened Forking

  const USER_END := CursorAt(ORIGIN, 0, USER_SLOTS)

  /** The tables and frames after the fork `g`. */
  ghost predicate Finished(g: Source, b: Arena, roles: seq<Role>, pages: Frames) {
    && g.Good()
    && ForkOf(g.a, b, roles, g.root, |g.a.tables|)
    && |roles| == |g.a.tables| + 1 + Prefix(g.a, g.root, 0, USER_SLOTS) && g.roles <= roles
    && Visited(g, b, pages, USER_END)
  }

  lemma FinishedArena(g: Source, b: Arena, roles: seq<Role>, pages: Frames)
    requires Finished(g, b, roles, pages)
    ensures b.base == g.a.base && |g.a.tables| < |b.tables| == |roles|
  {
  }

  /** The record of a frame of the forked space gains the child's alias. */
  ghost predicate RecordForked(m: MappedPage, m': MappedPage, cr3: nat, child: nat) {
    && (forall x :: x in m'.aliases <==> x in m.aliases || (x.cr3 == child && Alias(cr3, x.virt) in m.aliases))
    && m'.refs == |m'.aliases|
  }

  ghost predicate ForkStep(s: State, t: State, cr3: nat, child: nat) {
    && child !in s.view.spaces && t.view.spaces == s.view.spaces + iset{child}
    && (forall c: nat, v: Virt | c in s.view.spaces && v.Aligned() ::
          t.view.at(c, v) == if c == cr3 && v.User() then ReadOnly(s.view.at(c, v)) else s.view.at(c, v))
    && (forall v: Virt | v.Aligned() ::
          t.view.at(child, v) == if v.User() then ReadOnly(s.view.at(cr3, v)) else s.view.at(cr3, v))
    && FlagsForked(s.view, t.view, cr3, child)
    && t.pages.Keys == s.pages.Keys
    && (forall f | f in s.pages :: RecordForked(s.pages[f], t.pages[f], cr3, child))
  }

  /** The flags of the child's entry: the leaves of the user half lost RW, and what was absent in a table of its own is
      zero. */
  function ChildFlags(f: Flags, user: bool, k: nat): Flags {
    if !f.present && (user || k == 0) then NO_FLAGS else WithRw(f, user && k == 3, false)
  }

  /** The user leaves of the source lost RW; no other entry of the old spaces changed its flags. */
  ghost predicate FlagsForked(a: View, b: View, cr3: nat, child: nat) {
    && (forall c: nat, v: Virt, k: nat | c in a.spaces && k <= 3 ::
          b.flags(c, v, k) ==
            WithRw(a.flags(c, v, k), k == 3 && c == cr3 && v.User() && a.flags(c, v, k).present, false))
    && (forall v: Virt, k: nat | k <= 3 :: b.flags(child, v, k) == ChildFlags(a.flags(cr3, v, k), v.User(), k))
  }

  // ---- the walks of the old spaces ---------------------------------------

  /** The old walks end where they ended, at a leaf that may have lost its write permission. */
  lemma {:induction false} OldWalk(g: Source, b: Arena, pages: Frames, x: Cursor, r: nat, t: nat, depth: nat, v: Virt)
    requires g.Good() && Visited(g, b, pages, x) && t < |g.roles| && depth <= 3 && g.roles[t] == RoleAt(r, v, depth)
    ensures
      var w, w' := Walk(g.a, t, depth, v), Walk(b, t, depth, v);
      if w.Leaf? then w.table < |g.a.tables| && w' == w.(entry := b.At(w.table, w.idx)) else w' == Unmapped == w
    decreases 3 - depth
  {
    WalkOnRoles(g.a, g.roles, r, t, depth, v);
    var i := v.Slot(depth);
    var e := g.a.At(t, i);
    assert TableLinked(g.a, g.roles, t) && EntryLinked(g.a, g.roles, g.roles[t], i, e);
    assert b.At(t, i) == b.At(t, i);
    if IsPointer(g.roles[t], e) {
      OldWalk(g, b, pages, x, r, g.a.TableOf(e.page), depth + 1, v);
    }
  }

  lemma OldView(g: Source, b: Arena, roles: seq<Role>, pages: Frames, c: nat, v: Virt)
    requires Finished(g, b, roles, pages) && IsSpace(g.a, g.roles, c) && v.Aligned()
    ensures Translate(b, c, v) ==
              if c == g.Cr3() && v.User() then ReadOnly(Translate(g.a, c, v)) else Translate(g.a, c, v)
  {
    hide Booked, ForkOf, PagesBumped;
    var r := g.a.TableOf(c);
    assert TableLinked(g.a, g.roles, r);
    OldWalk(g, b, pages, USER_END, r, r, 0, v);
    WalkOnRoles(g.a, g.roles, r, r, 0, v);
    var w := Walk(g.a, r, 0, v);
    if w.Leaf? {
      assert b.At(w.table, w.idx) == b.At(w.table, w.idx);
    }
  }

  lemma ChildView(g: Source, b: Arena, roles: seq<Role>, pages: Frames, v: Virt)
    requires Finished(g, b, roles, pages) && ForkAligned(g.a, g.root, |g.a.tables|)
    ensures Translate(b, g.child, v) ==
              if v.User() then ReadOnly(Translate(g.a, g.Cr3(), v)) else Translate(g.a, g.Cr3(), v)
  {
    hide Booked, Visited, CloneOf, Prefix, TableLinked, TreeAligned, Walk;
    FinishedArena(g, b, roles, pages);
    var d := |g.a.tables|;
    if v.User() {
      ForkPathAligned(g.a, g.root, d, v);
      AlignedFork(g.a, g.roles, b, roles, g.root, d, v);
    } else {
      ChildKernelView(g, b, roles, pages, v);
    }
  }

  /** The kernel half of the child is that of the parent, aligned or not. */
  lemma ChildKernelView(g: Source, b: Arena, roles: seq<Role>, pages: Frames, v: Virt)
    requires Finished(g, b, roles, pages) && !v.User()
    ensures Translate(b, g.child, v) == Translate(g.a, g.Cr3(), v)
  {
    hide Booked, ChildCloned, PagesBumped, Prefix, Through;
    var d := |g.a.tables|;
    var e := g.a.At(g.root, v.i4);
    assert RootEntryCloned(g.a, b, g.root, d, v.i4);
    assert TableLinked(g.a, g.roles, g.root) && EntryLinked(g.a, g.roles, g.roles[g.root], v.i4, e);
    if e.flags.present {
      ClonedFields(e, 0);
      var u := g.a.TableOf(e.page);
      OldWalk(g, b, pages, USER_END, g.root, u, 1, v);
      WalkOnRoles(g.a, g.roles, g.root, u, 1, v);
      var w := Walk(g.a, u, 1, v);
      if w.Leaf? {
        assert b.At(w.table, w.idx) == b.At(w.table, w.idx);
      }
    }
  }

  // ---- the flags ---------------------------------------------------------

  /** The old entries keep their flags, except that a user leaf shows those of its entry now. */
  lemma {:induction false} OldFlags(g: Source, b: Arena, pages: Frames, x: Cursor, r: nat, t: nat, depth: nat, v: Virt,
                                    k: nat)
    requires g.Good() && Visited(g, b, pages, x) && t < |g.roles| && depth <= k <= 3
    requires g.roles[t] == RoleAt(r, v, depth)
    ensures
      var w, f, f' := Walk(g.a, t, depth, v), FlagsAt(g.a, t, depth, v, k), FlagsAt(b, t, depth, v, k);
      if k == 3 && v.User() && w.Leaf?
      then f == w.entry.flags && w.table < |g.a.tables| && f' == b.At(w.table, w.idx).flags
      else f' == f && (k == 3 && v.User() ==> !f.present)
    decreases 3 - depth
  {
    var i := v.Slot(depth);
    var e := g.a.At(t, i);
    assert TableLinked(g.a, g.roles, t) && EntryLinked(g.a, g.roles, g.roles[t], i, e);
    assert b.At(t, i) == b.At(t, i);
    if depth < k && IsPointer(g.roles[t], e) {
      OldFlags(g, b, pages, x, r, g.a.TableOf(e.page), depth + 1, v, k);
    }
  }

  lemma OldSpaceFlags(g: Source, b: Arena, roles: seq<Role>, pages: Frames, c: nat, v: Virt, k: nat)
    requires Finished(g, b, roles, pages) && IsSpace(g.a, g.roles, c) && k <= 3
    ensures
      var f := SlotFlags(g.a, c, v, k);
      SlotFlags(b, c, v, k) == WithRw(f, k == 3 && c == g.Cr3() && v.User() && f.present, false)
  {
    hide Booked, ForkOf, PagesBumped;
    var r := g.a.TableOf(c);
    assert TableLinked(g.a, g.roles, r);
    OldFlags(g, b, pages, USER_END, r, r, 0, v, k);
    WalkOnRoles(g.a, g.roles, r, r, 0, v);
    var w := Walk(g.a, r, 0, v);
    if k == 3 && w.Leaf? {
      assert b.At(w.table, w.idx) == b.At(w.table, w.idx);
      WalkIgnoresOffset(g.a, r, 0, v);
    }
  }

  lemma {:induction false} WalkIgnoresOffset(a: Arena, t: nat, depth: nat, v: Virt)
    requires t < |a.tables| && depth <= 3
    ensures Walk(a, t, depth, v.Page()) == Walk(a, t, depth, v)
    decreases 3 - depth
  {
    var e := a.At(t, v.Slot(depth));
    if depth < 3 && a.Holds(e.page) {
      WalkIgnoresOffset(a, a.TableOf(e.page), depth + 1, v);
    }
  }

  lemma {:induction false} AlignedFlags(a: Arena, roles0: seq<Role>, b: Arena, roles: seq<Role>,
                                        root: nat, t: nat, d: nat, depth: nat, r: Role, v: Virt, k: nat)
    requires Linked(a, roles0) && a.base == b.base && v.User()
    requires t < |a.tables| && 1 <= depth <= k <= 3 && r.depth == depth && roles0[t] == RoleAt(root, v, depth)
    requires CloneOf(a, b, roles, t, d, depth, r) && PathAligned(a, t, d, depth, v)
    ensures FlagsAt(b, d, depth, v, k) == ChildFlags(FlagsAt(a, t, depth, v, k), true, k)
    decreases 3 - depth
  {
    var i := v.Slot(depth);
    var e := a.At(t, i);
    assert TableLinked(a, roles0, t) && EntryLinked(a, roles0, roles0[t], i, e);
    assert EntryCloned(a, b, t, d, depth, i);
    if e.flags.present {
      ClonedFields(e, if depth < 3 then b.base + Spot(a, t, d, depth, i) else 0);
      if depth < k {
        AlignedFlags(a, roles0, b, roles, root, ChildOf(a, t, i), Spot(a, t, d, depth, i), depth + 1, r.Child(i), v, k);
      }
    }
  }

  lemma ChildUserFlags(g: Source, b: Arena, roles: seq<Role>, pages: Frames, v: Virt, k: nat)
    requires Finished(g, b, roles, pages) && ForkAligned(g.a, g.root, |g.a.tables|) && v.User() && k <= 3
    ensures SlotFlags(b, g.child, v, k) == ChildFlags(SlotFlags(g.a, g.Cr3(), v, k), true, k)
  {
    hide Booked, Visited, Prefix, TreeAligned, Through;
    FinishedArena(g, b, roles, pages);
    var d := |g.a.tables|;
    var e := g.a.At(g.root, v.i4);
    ForkPathAligned(g.a, g.root, d, v);
    assert TableLinked(g.a, g.roles, g.root) && EntryLinked(g.a, g.roles, g.roles[g.root], v.i4, e);
    assert RootEntryCloned(g.a, b, g.root, d, v.i4);
    if e.flags.present {
      var spot := Spot(g.a, g.root, d, 0, v.i4);
      ClonedFields(e, b.base + spot);
      if k > 0 {
        AlignedFlags(g.a, g.roles, b, roles, g.root, ChildOf(g.a, g.root, v.i4), spot, 1, Role(d, 1, v.i4, 0, 0), v, k);
      }
    }
  }

  lemma ChildKernelFlags(g: Source, b: Arena, roles: seq<Role>, pages: Frames, v: Virt, k: nat)
    requires Finished(g, b, roles, pages) && !v.User() && k <= 3
    ensures SlotFlags(b, g.child, v, k) == ChildFlags(SlotFlags(g.a, g.Cr3(), v, k), false, k)
  {
    hide Booked, ChildCloned, PagesBumped, Prefix, Through;
    var d := |g.a.tables|;
    var e := g.a.At(g.root, v.i4);
    assert RootEntryCloned(g.a, b, g.root, d, v.i4);
    assert TableLinked(g.a, g.roles, g.root) && EntryLinked(g.a, g.roles, g.roles[g.root], v.i4, e);
    if e.flags.present {
      ClonedFields(e, 0);
      if k > 0 {
        OldFlags(g, b, pages, USER_END, g.root, g.a.TableOf(e.page), 1, v, k);
      }
    }
  }

  lemma ForkFlags(g: Source, b: Arena, roles: seq<Role>, pages: Frames)
    requires Finished(g, b, roles, pages) && ForkAligned(g.a, g.root, |g.a.tables|)
    ensures FlagsForked(ViewOf(g.a, g.roles), ViewOf(b, roles), g.Cr3(), g.child)
  {
    hide Finished, ForkAligned, SlotFlags, LastTable, Translate;
    forall c: nat, v: Virt, k: nat | IsSpace(g.a, g.roles, c) && k <= 3
      ensures
        var f := SlotFlags(g.a, c, v, k);
        SlotFlags(b, c, v, k) == WithRw(f, k == 3 && c == g.Cr3() && v.User() && f.present, false)
    {
      OldSpaceFlags(g, b, roles, pages, c, v, k);
    }
    forall v: Virt, k: nat | k <= 3
      ensures SlotFlags(b, g.child, v, k) == ChildFlags(SlotFlags(g.a, g.Cr3(), v, k), v.User(), k)
    {
      if v.User() {
        ChildUserFlags(g, b, roles, pages, v, k);
      } else {
        ChildKernelFlags(g, b, roles, pages, v, k);
      }
    }
  }

  // ---- the tables stay linked --------------------------------------------

  lemma OldLinked(g: Source, b: Arena, roles: seq<Role>, pages: Frames, k: nat)
    requires Finished(g, b, roles, pages) && k < |g.a.tables|
    ensures TableLinked(b, roles, k)
  {
    assert TableLinked(g.a, g.roles, k);
    forall i: Index
      ensures EntryLinked(b, roles, roles[k], i, b.At(k, i))
    {
      assert EntryLinked(g.a, g.roles, g.roles[k], i, g.a.At(k, i));
      assert b.At(k, i) == b.At(k, i);
    }
  }

  lemma ForkKeepsLinks(g: Source, b: Arena, roles: seq<Role>, pages: Frames)
    requires Finished(g, b, roles, pages) && ForkAligned(g.a, g.root, |g.a.tables|)
    ensures Linked(b, roles) && PointersKept(g.a, g.roles, b)
    ensures forall c: nat :: IsSpace(b, roles, c) <==> IsSpace(g.a, g.roles, c) || c == g.child
  {
    var d := |g.a.tables|;
    forall k: nat | k < |roles|
      ensures TableLinked(b, roles, k) && (k > d ==> roles[k].depth > 0)
    {
      if k < d {
        OldLinked(g, b, roles, pages, k);
      } else {
        ForkLinked(g.a, g.roles, b, roles, g.root, d, k);
      }
    }
    forall t: nat, i: Index | t < d && IsPointer(g.roles[t], g.a.At(t, i))
      ensures b.At(t, i) == g.a.At(t, i)
    {
      assert b.At(t, i) == b.At(t, i);
    }
  }

  // ---- the step ----------------------------------------------------------

  lemma BumpedRecord(s: State, f: nat, cr3: nat, child: nat)
    requires Booked(s) && f in s.pages && child !in s.view.spaces
    ensures RecordForked(s.pages[f], Bumped(s.pages[f], cr3, child, USER_END), cr3, child)
  {
  }

  lemma ForkViews(g: Source, b: Arena, roles: seq<Role>, pages: Frames)
    requires Finished(g, b, roles, pages) && ForkAligned(g.a, g.root, |g.a.tables|)
    ensures forall c: nat, v: Virt | IsSpace(g.a, g.roles, c) && v.Aligned() ::
              Translate(b, c, v) ==
              if c == g.Cr3() && v.User() then ReadOnly(Translate(g.a, c, v)) else Translate(g.a, c, v)
    ensures forall v: Virt | v.Aligned() ::
              Translate(b, g.child, v) ==
              if v.User() then ReadOnly(Translate(g.a, g.Cr3(), v)) else Translate(g.a, g.Cr3(), v)
  {
    hide Finished, ForkAligned, Translate;
    forall c: nat, v: Virt | IsSpace(g.a, g.roles, c) && v.Aligned()
      ensures Translate(b, c, v) ==
              if c == g.Cr3() && v.User() then ReadOnly(Translate(g.a, c, v)) else Translate(g.a, c, v)
    {
      OldView(g, b, roles, pages, c, v);
    }
    forall v: Virt | v.Aligned()
      ensures Translate(b, g.child, v) ==
              if v.User() then ReadOnly(Translate(g.a, g.Cr3(), v)) else Translate(g.a, g.Cr3(), v)
    {
      ChildView(g, b, roles, pages, v);
    }
  }

  /** Under the bit-12 condition, the code's fork is the fork of address spaces. */
  lemma ForkIsStep(g: Source, b: Arena, roles: seq<Role>, pages: Frames)
    requires Finished(g, b, roles, pages) && ForkAligned(g.a, g.root, |g.a.tables|)
    ensures ForkStep(g.State(), State(ViewOf(b, roles), pages), g.Cr3(), g.child)
  {
    hide FlagsForked, ForkAligned, Translate, SlotFlags, LastTable, Booked, ForkOf, Linked;
    ForkKeepsLinks(g, b, roles, pages);
    ForkFlags(g, b, roles, pages);
    ForkViews(g, b, roles, pages);
    forall f | f in g.pages
      ensures RecordForked(g.pages[f], pages[f], g.Cr3(), g.child)
    {
      BumpedRecord(g.State(), f, g.Cr3(), g.child);
    }
  }

  lemma TwoAliases(m: MappedPage, x: Alias, y: Alias)
    requires x in m.aliases && y in m.aliases && x != y
    ensures |m.aliases| >= 2
  {
    assert |m.aliases - {x}| == |m.aliases| - 1 && y in m.aliases - {x};
  }

  lemma ForkBooksLeaf(s: State, t: State, cr3: nat, child: nat, c: nat, v: Virt)
    requires Booked(s) && ForkStep(s, t, cr3, child) && cr3 in s.view.spaces
    requires c in t.view.spaces && v.User() && v.Aligned()
    ensures LeafBooked(t.pages, Alias(c, v), t.view.at(c, v))
  {
    var from := if c == child then cr3 else c;
    var tr := s.view.at(from, v);
    if tr.Mapped? {
      LeafRecord(s, from, v);
      var m, m' := s.pages[tr.page], t.pages[tr.page];
      if Alias(cr3, v) in m.aliases {
        TwoAliases(m', Alias(cr3, v), Alias(child, v));
        if c != cr3 && c != child {
          TwoAliases(m, Alias(cr3, v), Alias(c, v));
        }
      } else {
        forall x | x in m'.aliases ensures x in m.aliases {
          assert OneHome(m.aliases) && Alias(c, v) in m.aliases;
        }
        assert m'.aliases == m.aliases;
      }
    }
  }

  lemma ForkCounts(s: State, t: State, cr3: nat, child: nat)
    requires Counted(s.pages) && ForkStep(s, t, cr3, child)
    ensures Counted(t.pages)
  {
  }

  lemma ForkKeepsBooks(s: State, t: State, cr3: nat, child: nat)
    requires Booked(s) && ForkStep(s, t, cr3, child) && cr3 in s.view.spaces
    ensures Booked(t)
  {
    hide Counted, LeafBooked;
    ForkCounts(s, t, cr3, child);
    forall f, x | f in t.pages && x in t.pages[f].aliases
      ensures AliasTrue(t.view, f, x)
    {
      assert RecordForked(s.pages[f], t.pages[f], cr3, child);
      assert AliasTrue(s.view, f, if x in s.pages[f].aliases then x else Alias(cr3, x.virt));
    }
    forall c: nat, v: Virt | c in t.view.spaces && v.User() && v.Aligned()
      ensures LeafBooked(t.pages, Alias(c, v), t.view.at(c, v))
    {
      ForkBooksLeaf(s, t, cr3, child, c, v);
    }
  }
}
