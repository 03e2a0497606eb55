/** What user programs see of memory, and the semantics that copy-on-write must be indistinguishable from: one
    in which `fork` copies every page at once. */
module Contents {
  import opened Basics
  import opened PageTables
  import opened FrameTable
  import opened ForkEffect

  type Bytes = b: seq<Byte> | |b| == 4096 witness seq(4096, _ => 0)

  /** Physical memory outside the arena. */
  type Ram = map<nat, Bytes>

  function FrameBytes(ram: Ram, page: nat): Bytes {
    if page in ram then ram[page] else seq(4096, _ => 0)
  }

  ghost predicate UserPage(s: State, x: Alias) {
    x.cr3 in s.view.spaces && x.virt.User() && x.virt.Aligned() && s.view.at(x.cr3, x.virt).Mapped?
  }

  /** The bytes of every mapped user page of every address space. */
  ghost function ContentsOf(s: State, ram: Ram): imap<Alias, Bytes> {
    imap x: Alias | UserPage(s, x) :: FrameBytes(ram, s.view.at(x.cr3, x.virt).page)
  }

  // ---- the reference semantics -------------------------------------------

  /** How the machine answers an access or a fork. */
  datatype Event =
    | Loaded(page: Alias, off: Offset, byte: Byte)
    | Wrote(page: Alias, off: Offset, byte: Byte)
    | Filled(page: Alias, bytes: Bytes)
    | KernelFilled(virt: Virt)
    | Copied(page: Alias)
    | Refaults(virt: Virt)
    | Forked(parent: nat, child: nat)
    | Absent
    | Halted
    | Panicked
    | Exhausted
    | Diverted

  /** Nothing follows these. */
  predicate Final(e: Event) { e.Halted? || e.Panicked? || e.Exhausted? || e.Diverted? }

  ghost function Eager(c: imap<Alias, Bytes>, e: Event): imap<Alias, Bytes> {
    match e
    case Filled(x, bytes) => c[x := bytes]
    case Wrote(x, off, byte) => if x in c then c[x := c[x][off := byte]] else c
    case Forked(parent, child) =>
      imap x: Alias | x in c || (x.cr3 == child && Alias(parent, x.virt) in c) ::
        if x in c then c[x] else c[Alias(parent, x.virt)]
    case _ => c
  }

  ghost function EagerRun(c: imap<Alias, Bytes>, trace: seq<Event>): imap<Alias, Bytes> {
    if trace == [] then c else Eager(EagerRun(c, trace[..|trace| - 1]), trace[|trace| - 1])
  }

  // ---- each step of the mapper is one of the reference semantics ---------

  lemma SameContents(s: State, ram: Ram, t: State, ram': Ram)
    requires forall x :: UserPage(s, x) <==> UserPage(t, x)
    requires forall x | UserPage(s, x) && UserPage(t, x) ::
      FrameBytes(ram', t.view.at(x.cr3, x.virt).page) == FrameBytes(ram, s.view.at(x.cr3, x.virt).page)
    ensures ContentsOf(t, ram') == ContentsOf(s, ram)
  {
  }

  lemma FillContents(s: State, t: State, cr3: nat, virt: Virt, page: nat, ram: Ram)
    requires cr3 in s.view.spaces && virt.User() && virt.Aligned() && MapStep(s, t, cr3, virt, page)
    ensures ContentsOf(t, ram) == Eager(ContentsOf(s, ram), Filled(Alias(cr3, virt), FrameBytes(ram, page)))
  {
  }

  lemma KernelContents(s: State, t: State, cr3: nat, virt: Virt, tr: Translation, ram: Ram, page: nat, bytes: Bytes)
    requires Booked(s) && !virt.User() && KernelStep(s, t, cr3, virt, tr) && page !in s.pages
    ensures ContentsOf(t, ram) == ContentsOf(s, ram) && ContentsOf(t, ram[page := bytes]) == ContentsOf(s, ram)
  {
    forall x: Alias | UserPage(s, x)
      ensures UserPage(t, x) && t.view.at(x.cr3, x.virt) == s.view.at(x.cr3, x.virt)
      ensures s.view.at(x.cr3, x.virt).page != page
    {
      LeafRecord(s, x.cr3, x.virt);
    }
    SameContents(s, ram, t, ram);
    SameContents(s, ram, t, ram[page := bytes]);
  }

  /** Copying a shared page is invisible. */
  lemma CowContents(s: State, t: State, cr3: nat, virt: Virt, scratch: Virt, copy: nat, ram: Ram)
    requires Booked(s) && cr3 in s.view.spaces && virt.User() && virt.Aligned() && !scratch.User()
    requires CowStep(s, t, cr3, virt, scratch, copy) && copy !in s.pages
    ensures ContentsOf(t, ram[copy := FrameBytes(ram, s.view.at(cr3, virt).page)]) == ContentsOf(s, ram)
  {
    var ram' := ram[copy := FrameBytes(ram, s.view.at(cr3, virt).page)];
    var f := s.view.at(cr3, virt).page;
    forall x: Alias | UserPage(s, x)
      ensures UserPage(t, x)
      ensures FrameBytes(ram', t.view.at(x.cr3, x.virt).page) == FrameBytes(ram, s.view.at(x.cr3, x.virt).page)
    {
      LeafRecord(s, x.cr3, x.virt);
      assert x in s.pages[f].aliases ==> AliasTrue(s.view, f, x);
    }
    forall x: Alias | UserPage(t, x) ensures UserPage(s, x) {
      assert x in s.pages[f].aliases ==> AliasTrue(s.view, f, x);
    }
    SameContents(s, ram, t, ram');
  }

  /** A store through a writable leaf is seen by its own page only. */
  lemma WriteContents(s: State, cr3: nat, virt: Virt, ram: Ram, off: Offset, byte: Byte)
    requires Booked(s) && UserPage(s, Alias(cr3, virt)) && s.view.at(cr3, virt).writable
    ensures
      var f := s.view.at(cr3, virt).page;
      ContentsOf(s, ram[f := FrameBytes(ram, f)[off := byte]]) ==
        Eager(ContentsOf(s, ram), Wrote(Alias(cr3, virt), off, byte))
  {
    var f := s.view.at(cr3, virt).page;
    var ram' := ram[f := FrameBytes(ram, f)[off := byte]];
    LeafRecord(s, cr3, virt);
    SoleAlias(s.pages[f].aliases, Alias(cr3, virt));
    forall x: Alias | UserPage(s, x) && x != Alias(cr3, virt)
      ensures s.view.at(x.cr3, x.virt).page != f
    {
      LeafRecord(s, x.cr3, x.virt);
    }
  }

  /** Sharing the frames looks like copying them. */
  lemma ForkContents(s: State, t: State, cr3: nat, child: nat, ram: Ram)
    requires cr3 in s.view.spaces && ForkStep(s, t, cr3, child)
    ensures ContentsOf(t, ram) == Eager(ContentsOf(s, ram), Forked(cr3, child))
  {
    var c := ContentsOf(s, ram);
    forall x: Alias
      ensures UserPage(t, x) <==> UserPage(s, x) || (x.cr3 == child && UserPage(s, Alias(cr3, x.virt)))
    {
    }
    forall x: Alias | UserPage(t, x)
      ensures ContentsOf(t, ram)[x] == Eager(c, Forked(cr3, child))[x]
    {
    }
  }
}
