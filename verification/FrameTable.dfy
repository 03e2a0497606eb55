/** The abstract state of the mapper, its copy-on-write invariant, and the steps that keep it.

    The state is what the walks of all address spaces amount to (a map from cr3 and virtual page to frame and
    permission) together with the bookkeeping of user frames (`mapped_pages`). */
module FrameTable {
  import opened PageTables

  /** The address spaces, what they translate to, the last table on the way to an address, and the flags of the
      entries on that way, by depth. */
  datatype View = View(spaces: iset<nat>, at: (nat, Virt) -> Translation, last: (nat, Virt) -> int,
                       flags: (nat, Virt, nat) -> Flags)

  ghost function ViewOf(a: Arena, roles: seq<Role>): View {
    View(iset c: nat | IsSpace(a, roles, c),
         (c: nat, v: Virt) => Translate(a, c, v),
         (c: nat, v: Virt) => LastTable(a, c, v),
         (c: nat, v: Virt, k: nat) => SlotFlags(a, c, v, k))
  }

  function LastTable(a: Arena, cr3: nat, v: Virt): int {
    if a.Holds(cr3) then Last(a, a.TableOf(cr3), 0, v) else -1
  }

  function SlotFlags(a: Arena, cr3: nat, v: Virt, k: nat): Flags {
    if a.Holds(cr3) && k <= 3 then FlagsAt(a, a.TableOf(cr3), 0, v, k) else NO_FLAGS
  }

  datatype Alias = Alias(cr3: nat, virt: Virt)

  /** `MappedPage`, without its constant fields. */
  datatype MappedPage = MappedPage(refs: nat, aliases: set<Alias>)

  type Frames = map<nat, MappedPage>

  datatype State = State(view: View, pages: Frames)

  // ---- the invariant -----------------------------------------------------

  ghost predicate OneHome(aliases: set<Alias>) {
    forall x, y {:trigger x in aliases, y in aliases} | x in aliases && y in aliases :: x.virt == y.virt
  }

  /** The reference count is the number of aliases, and all aliases sit at one virtual address. */
  ghost predicate Counted(pages: Frames) {
    forall f | f in pages :: pages[f].refs == |pages[f].aliases| && pages[f].refs > 0 && OneHome(pages[f].aliases)
  }

  ghost predicate AliasTrue(view: View, f: nat, x: Alias) {
    && x.cr3 in view.spaces && x.virt.User() && x.virt.Aligned()
    && view.at(x.cr3, x.virt).Mapped? && view.at(x.cr3, x.virt).page == f
  }

  ghost predicate AliasesTrue(s: State) {
    forall f, x | f in s.pages && x in s.pages[f].aliases :: AliasTrue(s.view, f, x)
  }

  /** A user leaf is recorded, and permits writes if and only if nobody else maps its frame. */
  predicate LeafBooked(pages: Frames, x: Alias, t: Translation) {
    t.Mapped? ==>
      && t.page in pages && x in pages[t.page].aliases
      && (t.writable <==> pages[t.page].refs == 1)
      && t.depth == 3
  }

  ghost predicate LeavesBooked(s: State) {
    forall c: nat, v: Virt | c in s.view.spaces && v.User() && v.Aligned() ::
      LeafBooked(s.pages, Alias(c, v), s.view.at(c, v))
  }

  /** The copy-on-write invariant: for every frame of the user half, the alias set is exactly the set of
      (cr3, virt) pairs that translate to it, refs is its size, all aliases share one address, and the
      leaves are read-only if and only if refs > 1. */
  ghost predicate Booked(s: State) {
    Counted(s.pages) && AliasesTrue(s) && LeavesBooked(s)
  }

  lemma LeafRecord(s: State, cr3: nat, virt: Virt)
    requires Booked(s) && cr3 in s.view.spaces && virt.User() && virt.Aligned() && s.view.at(cr3, virt).Mapped?
    ensures LeafBooked(s.pages, Alias(cr3, virt), s.view.at(cr3, virt))
  {
  }

  /** A write fault on a present user page always finds a shared frame. */
  lemma WritableIsSole(s: State, cr3: nat, virt: Virt)
    requires Booked(s) && cr3 in s.view.spaces && virt.User() && virt.Aligned() && s.view.at(cr3, virt).Mapped?
    ensures LeafBooked(s.pages, Alias(cr3, virt), s.view.at(cr3, virt))
    ensures s.view.at(cr3, virt).writable <==> s.pages[s.view.at(cr3, virt).page].refs <= 1
  {
  }

  // ---- how a store changes the view --------------------------------------

  /** One user page of one space now translates to `t`. */
  ghost predicate UserWrite(a: View, b: View, cr3: nat, virt: Virt, t: Translation) {
    && b.spaces == a.spaces
    && (forall c: nat, v: Virt | c in a.spaces && v.Aligned() ::
          b.at(c, v) == if c == cr3 && v == virt then t else a.at(c, v))
  }

  /** The two spaces share the tables on the way to the address, as far as there are any. */
  predicate Shared(a: View, c: nat, d: nat, v: Virt) { a.last(c, v) == a.last(d, v) }

  /** One kernel page now translates to `t`, in exactly the spaces that share the way to it with the given one. */
  ghost predicate KernelWrite(a: View, b: View, cr3: nat, virt: Virt, t: Translation) {
    && b.spaces == a.spaces
    && (forall c: nat, v: Virt | c in a.spaces && v.Aligned() ::
          b.at(c, v) == if v == virt && Shared(a, c, cr3, virt) then t else a.at(c, v))
  }

  ghost predicate TablesSame(a: View, b: View) {
    forall c: nat, v: Virt | c in a.spaces :: b.last(c, v) == a.last(c, v)
  }

  /** Tables appeared in the PML4 slot of `virt` only, and the way to it is shared by the same spaces. */
  ghost predicate TablesGrow(a: View, b: View, cr3: nat, virt: Virt) {
    && (forall c: nat | c in a.spaces :: Shared(b, c, cr3, virt) <==> Shared(a, c, cr3, virt))
    && (forall c: nat, v: Virt | c in a.spaces && v.i4 != virt.i4 :: b.last(c, v) == a.last(c, v))
  }

  /** The space `c` has the entries on the way from `cr3` to `virt` in its own tables. */
  predicate Sees(a: View, c: nat, cr3: nat, virt: Virt) { if virt.User() then c == cr3 else Shared(a, c, cr3, virt) }

  /** The leaf entry of one page now has the flags `f`; no other entry changed its flags. */
  ghost predicate FlagsWrite(a: View, b: View, cr3: nat, virt: Virt, f: Flags) {
    forall c: nat, v: Virt, k: nat | c in a.spaces && k <= 3 ::
      b.flags(c, v, k) == if k == 3 && Along(v, virt, 3) && Sees(a, c, cr3, virt) then f else a.flags(c, v, k)
  }

  /** The leaf entry, and every missing pointer to it, became present and writable and kept its other flags; no other
      entry changed its flags. */
  ghost predicate FlagsMarked(a: View, b: View, cr3: nat, virt: Virt) {
    forall c: nat, v: Virt, k: nat | c in a.spaces && k <= 3 ::
      b.flags(c, v, k) == Marked(a.flags(c, v, k), k, Along(v, virt, k) && Sees(a, c, cr3, virt))
  }

  function WithRw(f: Flags, here: bool, rw: bool): Flags { if here then f.(rw := rw) else f }

  /** The leaf entry of one user page now has the given RW flag; no other entry changed its flags. */
  ghost predicate FlagsRw(a: View, b: View, cr3: nat, virt: Virt, rw: bool) {
    forall c: nat, v: Virt, k: nat | c in a.spaces && k <= 3 ::
      b.flags(c, v, k) == WithRw(a.flags(c, v, k), k == 3 && Along(v, virt, 3) && c == cr3, rw)
  }

  // ---- map ---------------------------------------------------------------

  function Fresh(x: Alias): MappedPage { MappedPage(1, {x}) }

  function Join(m: MappedPage, x: Alias): MappedPage { MappedPage(m.refs + 1, m.aliases + {x}) }

  /** A frame that nobody maps is mapped at (cr3, virt), writable. */
  ghost predicate MapStep(s: State, t: State, cr3: nat, virt: Virt, page: nat) {
    && UserWrite(s.view, t.view, cr3, virt, Mapped(page, true, 3)) && TablesGrow(s.view, t.view, cr3, virt)
    && FlagsMarked(s.view, t.view, cr3, virt)
    && t.pages == s.pages[page := Fresh(Alias(cr3, virt))]
  }

  /** Where `map` keeps the books: on a page that is not mapped, and with a frame that is mapped nowhere else but
      at this address. */
  ghost predicate MayMap(s: State, cr3: nat, virt: Virt, page: nat) {
    && !s.view.at(cr3, virt).Mapped?
    && (page in s.pages ==> forall x | x in s.pages[page].aliases :: x.virt == virt)
  }

  /** Mapping a new frame over a mapped page leaves a stale alias behind; otherwise the books are kept. */
  lemma MapKeepsBooks(s: State, t: State, cr3: nat, virt: Virt, page: nat)
    requires Booked(s) && MapStep(s, t, cr3, virt, page) && page !in s.pages
    requires cr3 in s.view.spaces && virt.User() && virt.Aligned()
    ensures Booked(t) <==> MayMap(s, cr3, virt, page)
  {
    if s.view.at(cr3, virt).Mapped? {
      LeafRecord(s, cr3, virt);
      assert !AliasTrue(t.view, s.view.at(cr3, virt).page, Alias(cr3, virt));
    } else {
      MapBooked(s, t, cr3, virt, page);
    }
  }

  const HOME := Virt(0, 0, 0, 1, 0)

  /** One space, with one page. */
  ghost function OnePage(): State {
    State(View(iset{0},
               (c: nat, v: Virt) => if v == HOME then Mapped(100, true, 3) else NotMapped,
               (c: nat, v: Virt) => 3,
               (c: nat, v: Virt, k: nat) => if Along(v, HOME, k) then PRESENT_RW else NO_FLAGS),
          map[100 := Fresh(Alias(0, HOME))])
  }

  /** Mapping another frame over it leaves the record of the first frame behind. */
  lemma MapOver(t: State)
    requires MapStep(OnePage(), t, 0, HOME, 101)
    ensures Booked(OnePage()) && !Booked(t)
  {
    MapKeepsBooks(OnePage(), t, 0, HOME, 101);
  }

  lemma MapBooked(s: State, t: State, cr3: nat, virt: Virt, page: nat)
    requires Booked(s) && MapStep(s, t, cr3, virt, page) && page !in s.pages
    requires cr3 in s.view.spaces && virt.User() && virt.Aligned() && !s.view.at(cr3, virt).Mapped?
    ensures Booked(t)
  {
    forall f, x | f in t.pages && x in t.pages[f].aliases
      ensures AliasTrue(t.view, f, x)
    {
      if f != page {
        assert AliasTrue(s.view, f, x);
      }
    }
    forall c: nat, v: Virt | c in t.view.spaces && v.User() && v.Aligned()
      ensures LeafBooked(t.pages, Alias(c, v), t.view.at(c, v))
    {
      assert LeafBooked(s.pages, Alias(c, v), s.view.at(c, v));
    }
  }

  /** The spaces that have an alias. */
  function SpacesOf(aliases: set<Alias>): set<nat> { set x | x in aliases :: x.cr3 }

  /** In the given spaces, `virt` is read-only; everything else is as before. */
  ghost predicate Protected(a: View, b: View, spaces: set<nat>, virt: Virt) {
    && b.spaces == a.spaces
    && (forall c: nat, v: Virt | c in a.spaces && v.Aligned() ::
          b.at(c, v) == if v == virt && c in spaces then ReadOnly(a.at(c, v)) else a.at(c, v))
  }

  /** In the given spaces, the leaf entry of `virt` lost RW; no other entry changed its flags. */
  ghost predicate FlagsProtected(a: View, b: View, spaces: set<nat>, virt: Virt) {
    forall c: nat, v: Virt, k: nat | c in a.spaces && k <= 3 ::
      b.flags(c, v, k) == WithRw(a.flags(c, v, k), k == 3 && Along(v, virt, 3) && c in spaces, false)
  }

  /** The flags after a shared frame is mapped: those of `map`, but without RW in the leaves of all aliases. */
  ghost predicate FlagsShared(a: View, b: View, cr3: nat, spaces: set<nat>, virt: Virt) {
    forall c: nat, v: Virt, k: nat | c in a.spaces && k <= 3 ::
      b.flags(c, v, k) ==
        WithRw(Marked(a.flags(c, v, k), k, Along(v, virt, k) && Sees(a, c, cr3, virt)),
               k == 3 && Along(v, virt, 3) && c in spaces, false)
  }

  function Installed(at: Translation, here: bool, page: nat): Translation { if here then Mapped(page, true, 3) else at }

  /** A frame that is mapped elsewhere is mapped at (cr3, virt) too; `virt` becomes read-only in every space that has
      an alias of the frame. */
  ghost predicate ShareStep(s: State, t: State, cr3: nat, virt: Virt, page: nat)
    requires page in s.pages
  {
    && t.view.spaces == s.view.spaces && TablesGrow(s.view, t.view, cr3, virt)
    && (forall c: nat, v: Virt | c in s.view.spaces && v.Aligned() ::
          t.view.at(c, v) ==
            var m := Installed(s.view.at(c, v), c == cr3 && v == virt, page);
            if v == virt && c in SpacesOf(Join(s.pages[page], Alias(cr3, virt)).aliases) then ReadOnly(m) else m)
    && FlagsShared(s.view, t.view, cr3, SpacesOf(Join(s.pages[page], Alias(cr3, virt)).aliases), virt)
    && t.pages == s.pages[page := Join(s.pages[page], Alias(cr3, virt))]
  }

  lemma ShareKeepsBooks(s: State, t: State, cr3: nat, virt: Virt, page: nat)
    requires Booked(s) && page in s.pages && ShareStep(s, t, cr3, virt, page)
    requires cr3 in s.view.spaces && virt.User() && virt.Aligned()
    ensures Booked(t) <==> MayMap(s, cr3, virt, page)
  {
    if s.view.at(cr3, virt).Mapped? {
      LeafRecord(s, cr3, virt);
      var f := s.view.at(cr3, virt).page;
      if f == page {
        assert t.pages[page].aliases == s.pages[page].aliases;
      } else {
        assert !AliasTrue(t.view, f, Alias(cr3, virt));
      }
    } else if exists x :: x in s.pages[page].aliases && x.virt != virt {
      var x :| x in s.pages[page].aliases && x.virt != virt;
      assert x in t.pages[page].aliases && Alias(cr3, virt) in t.pages[page].aliases;
    } else {
      ShareBooked(s, t, cr3, virt, page);
    }
  }

  lemma ShareBooked(s: State, t: State, cr3: nat, virt: Virt, page: nat)
    requires Booked(s) && page in s.pages && ShareStep(s, t, cr3, virt, page)
    requires cr3 in s.view.spaces && virt.User() && virt.Aligned() && MayMap(s, cr3, virt, page)
    ensures Booked(t)
  {
    hide Booked, AliasTrue, LeafBooked;
    ShareCounted(s, t, cr3, virt, page);
    forall f, x | f in t.pages && x in t.pages[f].aliases
      ensures AliasTrue(t.view, f, x)
    {
      ShareAlias(s, t, cr3, virt, page, f, x);
    }
    forall c: nat, v: Virt | c in t.view.spaces && v.User() && v.Aligned()
      ensures LeafBooked(t.pages, Alias(c, v), t.view.at(c, v))
    {
      ShareLeaf(s, t, cr3, virt, page, c, v);
    }
    BookedFrom(t);
  }

  lemma BookedFrom(s: State)
    requires Counted(s.pages) && AliasesTrue(s) && LeavesBooked(s)
    ensures Booked(s)
  {
  }

  lemma ShareCounted(s: State, t: State, cr3: nat, virt: Virt, page: nat)
    requires Booked(s) && page in s.pages && ShareStep(s, t, cr3, virt, page)
    requires cr3 in s.view.spaces && virt.User() && virt.Aligned() && MayMap(s, cr3, virt, page)
    ensures Counted(t.pages)
  {
    assert Alias(cr3, virt) in s.pages[page].aliases ==> AliasTrue(s.view, page, Alias(cr3, virt));
  }

  lemma ShareAlias(s: State, t: State, cr3: nat, virt: Virt, page: nat, f: nat, x: Alias)
    requires Booked(s) && page in s.pages && ShareStep(s, t, cr3, virt, page)
    requires cr3 in s.view.spaces && virt.User() && virt.Aligned() && MayMap(s, cr3, virt, page)
    requires f in t.pages && x in t.pages[f].aliases
    ensures AliasTrue(t.view, f, x)
  {
    assert f in s.pages && x in s.pages[f].aliases ==> AliasTrue(s.view, f, x);
    assert x == Alias(cr3, virt) || x in s.pages[f].aliases;
    SharedView(s, t, cr3, virt, page, x.cr3, x.virt);
  }

  lemma ShareLeaf(s: State, t: State, cr3: nat, virt: Virt, page: nat, c: nat, v: Virt)
    requires Booked(s) && page in s.pages && ShareStep(s, t, cr3, virt, page)
    requires cr3 in s.view.spaces && virt.User() && virt.Aligned() && MayMap(s, cr3, virt, page)
    requires c in t.view.spaces && v.User() && v.Aligned()
    ensures LeafBooked(t.pages, Alias(c, v), t.view.at(c, v))
  {
    SharedView(s, t, cr3, virt, page, c, v);
    assert LeafBooked(s.pages, Alias(c, v), s.view.at(c, v));
    assert Alias(c, v) in s.pages[page].aliases ==> AliasTrue(s.view, page, Alias(c, v));
  }

  /** The loop over the aliases reaches exactly the spaces that map the frame at the caller's address. */
  lemma SharedView(s: State, t: State, cr3: nat, virt: Virt, page: nat, c: nat, v: Virt)
    requires Booked(s) && page in s.pages && ShareStep(s, t, cr3, virt, page)
    requires cr3 in s.view.spaces && virt.User() && virt.Aligned() && MayMap(s, cr3, virt, page)
    requires c in s.view.spaces && v.Aligned()
    ensures t.view.at(c, v) ==
            if v == virt && (c == cr3 || Alias(c, v) in s.pages[page].aliases) then Mapped(page, false, 3)
            else s.view.at(c, v)
  {
    var aliases, joined := s.pages[page].aliases, Join(s.pages[page], Alias(cr3, virt)).aliases;
    assert Alias(cr3, virt) in joined && (Alias(c, virt) in aliases ==> Alias(c, virt) in joined);
    assert Alias(c, virt) in aliases ==> AliasTrue(s.view, page, Alias(c, virt));
    assert Alias(c, virt) in aliases ==> LeafBooked(s.pages, Alias(c, virt), s.view.at(c, virt));
    assert c in SpacesOf(joined) <==> c == cr3 || Alias(c, virt) in aliases;
  }

  // ---- unmap -------------------------------------------------------------

  function Leave(m: MappedPage, x: Alias): MappedPage
    requires m.refs > 1
  {
    MappedPage(m.refs - 1, m.aliases - {x})
  }

  function Without(pages: Frames, f: nat, x: Alias): Frames
    requires f in pages
  {
    if pages[f].refs > 1 then pages[f := Leave(pages[f], x)] else pages - {f}
  }

  /** (cr3, virt) is gone, and a sole survivor has become writable. */
  ghost predicate Dropped(s: State, b: View, cr3: nat, virt: Virt, page: nat)
    requires page in s.pages
  {
    && b.spaces == s.view.spaces
    && (forall c: nat, v: Virt | c in s.view.spaces && v.Aligned() ::
          b.at(c, v) ==
            if c == cr3 && v == virt then NotMapped
            else if s.pages[page].refs == 2 && Alias(c, v) in s.pages[page].aliases then Mapped(page, true, 3)
            else s.view.at(c, v))
  }

  /** The leaf entry of (cr3, virt) has no flags left, that of a sole survivor has gained RW; no other entry changed its
      flags. */
  ghost predicate FlagsDropped(s: State, b: View, cr3: nat, virt: Virt, page: nat)
    requires page in s.pages
  {
    forall c: nat, v: Virt, k: nat | c in s.view.spaces && k <= 3 ::
      b.flags(c, v, k) ==
        if k == 3 && Along(v, virt, 3) && c == cr3 then NO_FLAGS
        else WithRw(s.view.flags(c, v, k),
                    k == 3 && s.pages[page].refs == 2 && Alias(c, v.Page()) in s.pages[page].aliases, true)
  }

  ghost predicate UnmapStep(s: State, t: State, cr3: nat, virt: Virt) {
    && s.view.at(cr3, virt).Mapped?
    && s.view.at(cr3, virt).page in s.pages
    && Dropped(s, t.view, cr3, virt, s.view.at(cr3, virt).page) && TablesSame(s.view, t.view)
    && FlagsDropped(s, t.view, cr3, virt, s.view.at(cr3, virt).page)
    && t.pages == Without(s.pages, s.view.at(cr3, virt).page, Alias(cr3, virt))
  }

  lemma SoleAlias(aliases: set<Alias>, x: Alias)
    requires |aliases| == 1 && x in aliases
    ensures aliases == {x}
  {
    assert |aliases - {x}| == 0;
  }

  lemma UnmapKeepsBooks(s: State, t: State, cr3: nat, virt: Virt)
    requires Booked(s) && cr3 in s.view.spaces && virt.User() && virt.Aligned()
    requires UnmapStep(s, t, cr3, virt)
    ensures Booked(t)
  {
    var page := s.view.at(cr3, virt).page;
    assert LeafBooked(s.pages, Alias(cr3, virt), s.view.at(cr3, virt));
    if s.pages[page].refs == 1 {
      SoleAlias(s.pages[page].aliases, Alias(cr3, virt));
    }
    forall f, x | f in t.pages && x in t.pages[f].aliases
      ensures AliasTrue(t.view, f, x)
    {
      assert AliasTrue(s.view, f, x);
    }
    forall c: nat, v: Virt | c in t.view.spaces && v.User() && v.Aligned()
      ensures LeafBooked(t.pages, Alias(c, v), t.view.at(c, v))
    {
      assert LeafBooked(s.pages, Alias(c, v), s.view.at(c, v));
    }
  }

  // ---- the kernel half ---------------------------------------------------

  ghost predicate KernelStep(s: State, t: State, cr3: nat, virt: Virt, tr: Translation) {
    && KernelWrite(s.view, t.view, cr3, virt, tr) && TablesGrow(s.view, t.view, cr3, virt) && t.pages == s.pages
    && KernelFlags(s.view, t.view, cr3, virt, tr)
  }

  ghost predicate KernelFlags(a: View, b: View, cr3: nat, virt: Virt, tr: Translation) {
    if tr.Mapped? then FlagsMarked(a, b, cr3, virt) else FlagsWrite(a, b, cr3, virt, NO_FLAGS)
  }

  lemma KernelKeepsBooks(s: State, t: State, cr3: nat, virt: Virt, tr: Translation)
    requires Booked(s) && !virt.User() && KernelStep(s, t, cr3, virt, tr)
    ensures Booked(t)
  {
  }

  // ---- copy-on-write -----------------------------------------------------

  /** The faulting space has a private, writable frame in place of the shared one; a sole survivor has become
      writable; the scratch page is unmapped, in the spaces that share the way to it; everything else is as before. */
  ghost predicate CowStep(s: State, t: State, cr3: nat, virt: Virt, scratch: Virt, copy: nat) {
    && s.view.at(cr3, virt).Mapped? && s.view.at(cr3, virt).page in s.pages
    && t.view.spaces == s.view.spaces
    && (forall c: nat | c in s.view.spaces ::
          t.view.at(c, scratch) ==
            if Shared(s.view, c, cr3, scratch) then NotMapped else s.view.at(c, scratch))
    && (forall c: nat, v: Virt | c in s.view.spaces && v.Aligned() && v != scratch ::
          t.view.at(c, v) ==
            if c == cr3 && v == virt then Mapped(copy, true, 3)
            else if Survives(s, cr3, virt, Alias(c, v)) then Mapped(s.view.at(cr3, virt).page, true, 3)
            else s.view.at(c, v))
    && t.pages == Without(s.pages, s.view.at(cr3, virt).page, Alias(cr3, virt))[copy := Fresh(Alias(cr3, virt))]
    && FlagsCopied(s, t.view, cr3, virt, scratch)
  }

  /** The private page has present and RW, and nothing else; the scratch page has no flags left; a sole survivor
      gained RW; missing pointers on the way to the two pages became present and writable; no other entry changed its
      flags. */
  ghost predicate FlagsCopied(s: State, b: View, cr3: nat, virt: Virt, scratch: Virt)
    requires s.view.at(cr3, virt).Mapped? && s.view.at(cr3, virt).page in s.pages
  {
    && (forall c: nat, v: Virt | c in s.view.spaces ::
          b.flags(c, v, 3) ==
            if Along(v, virt, 3) && c == cr3 then PRESENT_RW
            else if Along(v, scratch, 3) && Shared(s.view, c, cr3, scratch) then NO_FLAGS
            else WithRw(s.view.flags(c, v, 3), Survives(s, cr3, virt, Alias(c, v.Page())), true))
    && (forall c: nat, v: Virt, k: nat | c in s.view.spaces && k <= 2 ::
          b.flags(c, v, k) ==
            Marked(s.view.flags(c, v, k), k,
                   (Along(v, virt, k) && c == cr3) || (Along(v, scratch, k) && Shared(s.view, c, cr3, scratch))))
  }

  /** `x` is the only other alias of the frame at (cr3, virt). */
  predicate Survives(s: State, cr3: nat, virt: Virt, x: Alias)
    requires s.view.at(cr3, virt).Mapped? && s.view.at(cr3, virt).page in s.pages
  {
    var m := s.pages[s.view.at(cr3, virt).page];
    m.refs == 2 && x in m.aliases
  }

  lemma CowFlags(s: State, s1: State, s2: State, s3: State, t: State, cr3: nat, virt: Virt, scratch: Virt, copy: nat)
    requires cr3 in s.view.spaces && virt.User() && virt.Aligned() && !scratch.User() && scratch.Aligned()
    requires KernelStep(s, s1, cr3, scratch, Mapped(copy, true, 3)) && UnmapStep(s1, s2, cr3, virt)
    requires KernelStep(s2, s3, cr3, scratch, NotMapped) && TablesSame(s2.view, s3.view)
    requires MapStep(s3, t, cr3, virt, copy)
    requires Booked(s1)
    ensures s.view.at(cr3, virt).Mapped? && s.view.at(cr3, virt).page in s.pages
    ensures FlagsCopied(s, t.view, cr3, virt, scratch)
  {
  }

  /** `cow` maps the scratch page, drops the shared page, drops the scratch page, and maps the copy. */
  lemma CowComposed(s: State, s1: State, s2: State, s3: State, t: State, cr3: nat, virt: Virt, scratch: Virt, copy: nat)
    requires cr3 in s.view.spaces && virt.User() && virt.Aligned() && !scratch.User() && scratch.Aligned()
    requires KernelStep(s, s1, cr3, scratch, Mapped(copy, true, 3)) && UnmapStep(s1, s2, cr3, virt)
    requires KernelStep(s2, s3, cr3, scratch, NotMapped) && TablesSame(s2.view, s3.view)
    requires MapStep(s3, t, cr3, virt, copy)
    requires Booked(s1)
    ensures CowStep(s, t, cr3, virt, scratch, copy)
  {
    hide FlagsMarked, FlagsWrite, FlagsDropped, FlagsCopied;
    CowFlags(s, s1, s2, s3, t, cr3, virt, scratch, copy);
    var f := s1.view.at(cr3, virt).page;
    forall c: nat ensures Alias(c, scratch) !in s1.pages[f].aliases {
      assert Alias(c, scratch) in s1.pages[f].aliases ==> AliasTrue(s1.view, f, Alias(c, scratch));
    }
  }
}
