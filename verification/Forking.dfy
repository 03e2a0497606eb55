/** The progress of `fork` through the user half of the source space: which leaves have been made read-only
    and which frames have gained an alias, once everything before a cursor has been visited. */
module Forking {
  import opened PageTables
  import opened FrameTable
  import opened Cloning

  /** A position in the order of the four nested loops. An index may be one past the end. */
  datatype Cursor = Cursor(i4: nat, i3: nat, i2: nat, i1: nat)

  predicate Before(v: Virt, x: Cursor) {
    || v.i4 < x.i4
    || (v.i4 == x.i4 && (v.i3 < x.i3 || (v.i3 == x.i3 && (v.i2 < x.i2 || (v.i2 == x.i2 && v.i1 < x.i1)))))
  }

  function CursorAt(v: Virt, depth: nat, i: nat): Cursor
    requires depth <= 3
  {
    if depth == 0 then Cursor(i, 0, 0, 0)
    else if depth == 1 then Cursor(v.i4, i, 0, 0)
    else if depth == 2 then Cursor(v.i4, v.i3, i, 0)
    else Cursor(v.i4, v.i3, v.i2, i)
  }

  /** `virt_addr | (i << shift)`, on an address whose lower indices are zero. */
  function Descend(v: Virt, depth: nat, i: Index): Virt
    requires depth <= 3
  {
    if depth == 0 then Virt(i, 0, 0, 0, 0)
    else if depth == 1 then Virt(v.i4, i, 0, 0, 0)
    else if depth == 2 then Virt(v.i4, v.i3, i, 0, 0)
    else Virt(v.i4, v.i3, v.i2, i, 0)
  }

  predicate Below(w: Virt, v: Virt, depth: nat) {
    && (depth >= 1 ==> w.i4 == v.i4) && (depth >= 2 ==> w.i3 == v.i3) && (depth >= 3 ==> w.i2 == v.i2)
  }

  /** What lies between two successive cursors of a loop is the subtree of the entry between them. */
  lemma CursorStep(v: Virt, depth: nat, i: Index, w: Virt)
    requires depth <= 3
    ensures Before(w, CursorAt(v, depth, i + 1)) <==>
            Before(w, CursorAt(v, depth, i)) || (Below(w, v, depth) && w.Slot(depth) == i)
    ensures depth < 3 ==> CursorAt(Descend(v, depth, i), depth + 1, 0) == CursorAt(v, depth, i)
    ensures depth < 3 ==>
      (Before(w, CursorAt(Descend(v, depth, i), depth + 1, ENTRIES)) <==> Before(w, CursorAt(v, depth, i + 1)))
  {
  }

  /** The address that entry `i` of a page table with role `r` serves. */
  function Served(r: Role, i: Index): Virt { Virt(r.i4, r.i3, r.i2, i, 0) }

  // ---- the source tables -------------------------------------------------

  /** Nothing changed in the old tables except that leaves of the source space lost RW: all those before the
      cursor, and none at or after it. */
  ghost predicate SourceMarked(a: Arena, roles: seq<Role>, b: Arena, root: nat, x: Cursor)
    requires |roles| == |a.tables| && root < |roles|
  {
    && a.base == b.base && |a.tables| <= |b.tables|
    && (forall t: nat, i: Index {:trigger b.At(t, i)} | t < |a.tables| ::
          || b.At(t, i) == a.At(t, i)
          || (roles[t].space == root && roles[t].depth == 3 && Before(Served(roles[t], i), x)
              && a.At(t, i).flags.present && b.At(t, i) == a.At(t, i).SetRw(false)))
    && (forall v: Virt {:trigger Walk(a, root, 0, v)} |
          v.User() && v.Aligned() && Before(v, x) && Walk(a, root, 0, v).Leaf? ::
          MarkedAt(b, Walk(a, root, 0, v)))
  }

  predicate MarkedAt(b: Arena, w: WalkResult)
    requires w.Leaf?
  {
    w.table < |b.tables| && b.At(w.table, w.idx) == w.entry.SetRw(false)
  }

  /** Walks below `v` pass through table `t`. */
  ghost predicate Through(a: Arena, root: nat, t: nat, depth: nat, v: Virt)
    requires root < |a.tables| && t < |a.tables| && depth <= 3
  {
    forall w: Virt {:trigger Walk(a, root, 0, w)} | Below(w, v, depth) :: Walk(a, root, 0, w) == Walk(a, t, depth, w)
  }

  lemma ThroughChild(a: Arena, root: nat, t: nat, depth: nat, v: Virt, i: Index)
    requires root < |a.tables| && t < |a.tables| && depth <= 2 && Through(a, root, t, depth, v)
    requires HasChild(a, t, i) && (depth == 0 || !a.At(t, i).flags.ps)
    ensures Through(a, root, ChildOf(a, t, i), depth + 1, Descend(v, depth, i))
  {
  }

  /** Changes outside the old tables do not matter. */
  lemma SourceFrame(a: Arena, roles: seq<Role>, b: Arena, b': Arena, root: nat, x: Cursor)
    requires |roles| == |a.tables| && root < |roles| && Linked(a, roles) && IsRoot(roles, root)
    requires SourceMarked(a, roles, b, root, x)
    requires b.base == b'.base && |a.tables| <= |b'.tables|
    requires forall k: nat | k < |a.tables| :: b'.tables[k] == b.tables[k]
    ensures SourceMarked(a, roles, b', root, x)
  {
    forall t: nat, i: Index | t < |a.tables|
      ensures || b'.At(t, i) == a.At(t, i)
              || (roles[t].space == root && roles[t].depth == 3 && Before(Served(roles[t], i), x)
                  && a.At(t, i).flags.present && b'.At(t, i) == a.At(t, i).SetRw(false))
    {
      assert b'.At(t, i) == b.At(t, i);
    }
    forall v: Virt | v.User() && v.Aligned() && Before(v, x) && Walk(a, root, 0, v).Leaf?
      ensures MarkedAt(b', Walk(a, root, 0, v))
    {
      assert TableLinked(a, roles, root);
      WalkOnRoles(a, roles, root, root, 0, v);
      assert MarkedAt(b, Walk(a, root, 0, v));
    }
  }

  /** The cursor may pass over an entry below which nothing is mapped. */
  lemma SourceSkip(a: Arena, roles: seq<Role>, b: Arena, root: nat, v: Virt, depth: nat, i: Index)
    requires |roles| == |a.tables| && root < |roles| && depth <= 3
    requires SourceMarked(a, roles, b, root, CursorAt(v, depth, i))
    requires forall w: Virt | Below(w, v, depth) && w.Slot(depth) == i :: !Walk(a, root, 0, w).Leaf?
    ensures SourceMarked(a, roles, b, root, CursorAt(v, depth, i + 1))
  {
  }

  /** A cursor that lies before the same addresses says the same. */
  lemma SourceWrap(a: Arena, roles: seq<Role>, b: Arena, root: nat, v: Virt, depth: nat, i: Index)
    requires |roles| == |a.tables| && root < |roles| && depth <= 2
    requires SourceMarked(a, roles, b, root, CursorAt(Descend(v, depth, i), depth + 1, ENTRIES))
    ensures SourceMarked(a, roles, b, root, CursorAt(v, depth, i + 1))
  {
  }

  /** At the cursor, an entry of the source is still as it was. */
  lemma SourceEntry(a: Arena, roles: seq<Role>, b: Arena, root: nat, t: nat, depth: nat, v: Virt, i: Index)
    requires |roles| == |a.tables| && root < |roles| && t < |roles| && depth <= 3 && v.User()
    requires roles[t] == RoleAt(root, v, depth)
    requires SourceMarked(a, roles, b, root, CursorAt(v, depth, i))
    ensures b.At(t, i) == a.At(t, i)
  {
  }

  /** Taking RW from the leaf at the cursor. */
  lemma SourceMark(a: Arena, roles: seq<Role>, b: Arena, root: nat, t: nat, v: Virt, i: Index)
    requires Linked(a, roles) && IsRoot(roles, root) && t < |roles| && v.User()
    requires roles[t] == RoleAt(root, v, 3) && Through(a, root, t, 3, v) && a.At(t, i).flags.present
    requires SourceMarked(a, roles, b, root, CursorAt(v, 3, i))
    ensures SourceMarked(a, roles, b.Set(t, i, b.At(t, i).SetRw(false)), root, CursorAt(v, 3, i + 1))
  {
    var b' := b.Set(t, i, b.At(t, i).SetRw(false));
    SourceEntry(a, roles, b, root, t, 3, v, i);
    forall k: nat, j: Index | k < |a.tables|
      ensures || b'.At(k, j) == a.At(k, j)
              || (roles[k].space == root && roles[k].depth == 3 && Before(Served(roles[k], j), CursorAt(v, 3, i + 1))
                  && a.At(k, j).flags.present && b'.At(k, j) == a.At(k, j).SetRw(false))
    {
      assert b.At(k, j) == b.At(k, j);
    }
    forall w: Virt | w.User() && w.Aligned() && Before(w, CursorAt(v, 3, i + 1)) && Walk(a, root, 0, w).Leaf?
      ensures MarkedAt(b', Walk(a, root, 0, w))
    {
      CursorStep(v, 3, i, w);
      assert TableLinked(a, roles, root);
      WalkOnRoles(a, roles, root, root, 0, w);
      if !(Below(w, v, 3) && w.Slot(3) == i) {
        assert MarkedAt(b, Walk(a, root, 0, w));
      }
    }
  }

  // ---- the frames --------------------------------------------------------

  /** The address at which a frame is mapped. */
  ghost function Home(m: MappedPage): Virt
    requires m.aliases != {}
  {
    var x :| x in m.aliases; x.virt
  }

  /** The record of a frame once the source space (cr3) has been forked (to child) up to the cursor. */
  ghost function Bumped(m: MappedPage, cr3: nat, child: nat, x: Cursor): MappedPage {
    if m.aliases != {} && Alias(cr3, Home(m)) in m.aliases && Before(Home(m), x) then
      Join(m, Alias(child, Home(m)))
    else m
  }

  ghost predicate PagesBumped(pages: Frames, pages': Frames, cr3: nat, child: nat, x: Cursor) {
    && pages'.Keys == pages.Keys
    && (forall f: nat | f in pages :: pages'[f] == Bumped(pages[f], cr3, child, x))
  }

  lemma HomeOf(m: MappedPage, x: Alias)
    requires OneHome(m.aliases) && x in m.aliases
    ensures Home(m) == x.virt
  {
  }

  lemma BumpSkip(s: State, pages: Frames, cr3: nat, child: nat, v: Virt, depth: nat, i: Index)
    requires Booked(s) && depth <= 3
    requires PagesBumped(s.pages, pages, cr3, child, CursorAt(v, depth, i))
    requires forall w: Virt | Below(w, v, depth) && w.Slot(depth) == i :: !s.view.at(cr3, w).Mapped?
    ensures PagesBumped(s.pages, pages, cr3, child, CursorAt(v, depth, i + 1))
  {
    forall f: nat | f in s.pages
      ensures pages[f] == Bumped(s.pages[f], cr3, child, CursorAt(v, depth, i + 1))
    {
      var h := Home(s.pages[f]);
      CursorStep(v, depth, i, h);
      if Alias(cr3, h) in s.pages[f].aliases {
        assert AliasTrue(s.view, f, Alias(cr3, h));
      }
    }
  }

  lemma BumpWrap(s: State, pages: Frames, cr3: nat, child: nat, v: Virt, depth: nat, i: Index)
    requires Booked(s) && depth <= 2
    requires PagesBumped(s.pages, pages, cr3, child, CursorAt(Descend(v, depth, i), depth + 1, ENTRIES))
    ensures PagesBumped(s.pages, pages, cr3, child, CursorAt(v, depth, i + 1))
  {
    forall f: nat | f in s.pages
      ensures pages[f] == Bumped(s.pages[f], cr3, child, CursorAt(v, depth, i + 1))
    {
      CursorStep(v, depth, i, Home(s.pages[f]));
    }
  }

  /** The frame of the leaf at the cursor is on record, and gains the child's alias. */
  lemma BumpLeaf(s: State, pages: Frames, cr3: nat, child: nat, v: Virt, i: Index)
    requires Booked(s) && v.User() && cr3 in s.view.spaces
    requires PagesBumped(s.pages, pages, cr3, child, CursorAt(v, 3, i))
    requires s.view.at(cr3, Descend(v, 3, i)).Mapped?
    ensures
      var f := s.view.at(cr3, Descend(v, 3, i)).page;
      && f in pages
      && PagesBumped(s.pages, pages[f := Join(pages[f], Alias(child, Descend(v, 3, i)))], cr3, child,
                     CursorAt(v, 3, i + 1))
  {
    var w := Descend(v, 3, i);
    LeafRecord(s, cr3, w);
    var f := s.view.at(cr3, w).page;
    HomeOf(s.pages[f], Alias(cr3, w));
    forall g: nat | g in s.pages && g != f
      ensures pages[g] == Bumped(s.pages[g], cr3, child, CursorAt(v, 3, i + 1))
    {
      var h := Home(s.pages[g]);
      CursorStep(v, 3, i, h);
      if Alias(cr3, h) in s.pages[g].aliases {
        assert AliasTrue(s.view, g, Alias(cr3, h));
      }
    }
  }

  // ---- both together -----------------------------------------------------

  /** A fork in progress: the tables and frames it started from, the source root, and the child's cr3. */
  datatype Source = Source(a: Arena, roles: seq<Role>, pages: Frames, root: nat, child: nat)
  {
    ghost function State(): State { FrameTable.State.State(ViewOf(a, roles), pages) }

    function Cr3(): nat { a.base + root }

    ghost predicate Good() {
      Linked(a, roles) && IsRoot(roles, root) && Booked(State()) && child == a.base + |a.tables|
    }

    /** Table `t` of the source is the one on the way to `v`. */
    ghost predicate OnPath(t: nat, depth: nat, v: Virt)
      requires Good() && depth <= 3
    {
      v.User() && t < |a.tables| && roles[t] == RoleAt(root, v, depth) && Through(a, root, t, depth, v)
    }
  }

  ghost predicate Visited(g: Source, b: Arena, pages: Frames, x: Cursor)
    requires g.Good()
  {
    SourceMarked(g.a, g.roles, b, g.root, x) && PagesBumped(g.pages, pages, g.Cr3(), g.child, x)
  }

  lemma VisitFrame(g: Source, b: Arena, b': Arena, pages: Frames, x: Cursor)
    requires g.Good() && Visited(g, b, pages, x)
    requires b.base == b'.base && |g.a.tables| <= |b'.tables|
    requires forall k: nat | k < |g.a.tables| :: b'.tables[k] == b.tables[k]
    ensures Visited(g, b', pages, x)
  {
    SourceFrame(g.a, g.roles, b, b', g.root, x);
  }

  lemma VisitSkip(g: Source, b: Arena, pages: Frames, t: nat, depth: nat, v: Virt, i: Index)
    requires g.Good() && depth <= 3 && g.OnPath(t, depth, v) && !g.a.At(t, i).flags.present
    requires Visited(g, b, pages, CursorAt(v, depth, i))
    ensures Visited(g, b, pages, CursorAt(v, depth, i + 1))
  {
    forall w: Virt | Below(w, v, depth) && w.Slot(depth) == i
      ensures Walk(g.a, g.root, 0, w) == Unmapped
    {
      assert Walk(g.a, g.root, 0, w) == Walk(g.a, t, depth, w);
    }
    SourceSkip(g.a, g.roles, b, g.root, v, depth, i);
    BumpSkip(g.State(), pages, g.Cr3(), g.child, v, depth, i);
  }

  lemma VisitWrap(g: Source, b: Arena, pages: Frames, v: Virt, depth: nat, i: Index)
    requires g.Good() && depth <= 2
    requires Visited(g, b, pages, CursorAt(Descend(v, depth, i), depth + 1, ENTRIES))
    ensures Visited(g, b, pages, CursorAt(v, depth, i + 1))
  {
    SourceWrap(g.a, g.roles, b, g.root, v, depth, i);
    BumpWrap(g.State(), pages, g.Cr3(), g.child, v, depth, i);
  }

  lemma VisitLeaf(g: Source, b: Arena, pages: Frames, t: nat, v: Virt, i: Index)
    requires g.Good() && g.OnPath(t, 3, v) && g.a.At(t, i).flags.present
    requires Visited(g, b, pages, CursorAt(v, 3, i))
    ensures b.At(t, i) == g.a.At(t, i) && b.At(t, i).page in pages
    ensures
      var f := b.At(t, i).page;
      Visited(g, b.Set(t, i, b.At(t, i).SetRw(false)), pages[f := Join(pages[f], Alias(g.child, Descend(v, 3, i)))],
              CursorAt(v, 3, i + 1))
  {
    SourceEntry(g.a, g.roles, b, g.root, t, 3, v, i);
    SourceMark(g.a, g.roles, b, g.root, t, v, i);
    assert Walk(g.a, g.root, 0, Descend(v, 3, i)) == Walk(g.a, t, 3, Descend(v, 3, i));
    BumpLeaf(g.State(), pages, g.Cr3(), g.child, v, i);
  }

  lemma VisitChild(g: Source, b: Arena, pages: Frames, t: nat, depth: nat, v: Virt, i: Index)
    requires g.Good() && depth <= 2 && g.OnPath(t, depth, v) && g.a.At(t, i).flags.present
    requires depth == 0 ==> i < USER_SLOTS
    requires Visited(g, b, pages, CursorAt(v, depth, i))
    ensures b.base == g.a.base && t < |g.a.tables| == |g.roles| <= |b.tables|
    ensures b.At(t, i) == g.a.At(t, i) && HasChild(g.a, t, i) && (depth > 0 ==> !g.a.At(t, i).flags.ps)
    ensures g.OnPath(ChildOf(g.a, t, i), depth + 1, Descend(v, depth, i))
    ensures CursorAt(Descend(v, depth, i), depth + 1, 0) == CursorAt(v, depth, i)
  {
    SourceEntry(g.a, g.roles, b, g.root, t, depth, v, i);
    assert TableLinked(g.a, g.roles, t) && EntryLinked(g.a, g.roles, g.roles[t], i, g.a.At(t, i));
    ThroughChild(g.a, g.root, t, depth, v, i);
    CursorStep(v, depth, i, v);
  }

  const ORIGIN := Virt(0, 0, 0, 0, 0)

  lemma VisitNothing(g: Source, b: Arena)
    requires g.Good() && b.base == g.a.base && |g.a.tables| <= |b.tables|
    requires forall k: nat | k < |g.a.tables| :: b.tables[k] == g.a.tables[k]
    ensures Visited(g, b, g.pages, CursorAt(ORIGIN, 0, 0))
    ensures g.OnPath(g.root, 0, ORIGIN)
  {
    assert TableLinked(g.a, g.roles, g.root);
    var x := CursorAt(ORIGIN, 0, 0);
    assert forall v: Virt :: !Before(v, x);
  }

  /** The entry at the cursor is still that of the source, and in the user half it is no large page. */
  lemma SourceSlot(g: Source, b: Arena, pages: Frames, t: nat, depth: nat, v: Virt, i: Index)
    requires g.Good() && depth <= 3 && g.OnPath(t, depth, v) && Visited(g, b, pages, CursorAt(v, depth, i))
    ensures b.base == g.a.base && t < |g.a.tables| == |g.roles| <= |b.tables|
    ensures b.At(t, i) == g.a.At(t, i) && (1 <= depth <= 2 ==> !b.At(t, i).flags.ps)
  {
    SourceEntry(g.a, g.roles, b, g.root, t, depth, v, i);
    assert TableLinked(g.a, g.roles, t) && EntryLinked(g.a, g.roles, g.roles[t], i, g.a.At(t, i));
  }

  /** An absent entry of the source leaves an absent entry in the clone. */
  lemma SkipSlot(g: Source, b: Arena, roles: seq<Role>, pages: Frames, t: nat, d: nat, depth: nat, v: Virt, i: Index,
                 r: Role)
    requires g.Good() && 1 <= depth <= 3 && g.OnPath(t, depth, v) && r.depth == depth && !g.a.At(t, i).flags.present
    requires |roles| == d + 1 + Room(g.a, t, depth, i)
    requires ClonePrefix(g.a, b, roles, t, d, depth, r, i) && Visited(g, b, pages, CursorAt(v, depth, i))
    ensures ClonePrefix(g.a, b, roles, t, d, depth, r, i + 1) && Visited(g, b, pages, CursorAt(v, depth, i + 1))
    ensures Room(g.a, t, depth, i + 1) == Room(g.a, t, depth, i)
  {
    VisitSkip(g, b, pages, t, depth, v, i);
    ClonePrefixStep(g.a, b, roles, b, roles, t, d, depth, r, i);
  }

  lemma SkipRootSlot(g: Source, b: Arena, roles: seq<Role>, pages: Frames, d: nat, i: Index)
    requires g.Good() && g.OnPath(g.root, 0, ORIGIN) && i < USER_SLOTS && !g.a.At(g.root, i).flags.present
    requires |roles| == d + 1 + Prefix(g.a, g.root, 0, i)
    requires ForkPrefix(g.a, b, roles, g.root, d, i) && Visited(g, b, pages, CursorAt(ORIGIN, 0, i))
    ensures ForkPrefix(g.a, b, roles, g.root, d, i + 1) && Visited(g, b, pages, CursorAt(ORIGIN, 0, i + 1))
    ensures Prefix(g.a, g.root, 0, i + 1) == Prefix(g.a, g.root, 0, i)
  {
    VisitSkip(g, b, pages, g.root, 0, ORIGIN, i);
    ForkPrefixStep(g.a, b, roles, b, roles, g.root, d, i);
  }
}
