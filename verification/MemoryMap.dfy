/** The memory that the kernel hands to the page allocator at boot. */
module MemoryMap {
  import opened Basics
  import opened PageTables
  import opened FrameTable
  import opened ForkExact
  import opened BuddyBlocks
  import opened BuddyRanges
  import opened PhysicalPages
  import opened AllocatorRuns

  /** A half-open range of addresses. */
  datatype Span = Span(lo: nat, hi: nat)
  {
    predicate Contains(a: nat) { lo <= a < hi }
  }

  predicate Within(r: Range, a: nat) { r.start <= a < r.End() }

  ghost function Addresses(r: Range): iset<nat> { iset a: nat | Within(r, a) }

  ghost function Left(b: Option<Range>): iset<nat> { if b.Some? then Addresses(b.value) else iset{} }

  /** `exclude_range`. */
  function ExcludeRange(b: Range, x: Span): Option<Range> {
    match (x.Contains(b.start), x.Contains(b.start + b.size))
    case (true, true) => None
    case (true, false) =>
      var size := b.size - (x.hi - b.start);
      if size == 0 then None else Some(Range(x.hi, size))
    case (false, true) =>
      var size := b.size - ((b.start + b.size) - x.lo);
      if size == 0 then None else Some(Range(b.start, size))
    case _ => Some(b)
  }

  ghost function Remaining(b: Range, x: Span): iset<nat> { iset a: nat | Within(b, a) && !x.Contains(a) }

  /** `exclude_range` removes exactly the excluded addresses, unless they lie inside the block (it is then
      returned unchanged). */
  lemma ExcludeExact(b: Range, x: Span)
    ensures Left(ExcludeRange(b, x)) == Remaining(b, x) <==> !(b.start < x.lo < x.hi <= b.End())
  {
    if b.start < x.lo < x.hi <= b.End() {
      assert x.lo in Left(ExcludeRange(b, x)) && x.lo !in Remaining(b, x);
    } else {
      forall a: nat
        ensures a in Left(ExcludeRange(b, x)) <==> a in Remaining(b, x)
      {
        assert ExcludeRange(b, x).Some? ==> (a in Left(ExcludeRange(b, x)) <==> Within(ExcludeRange(b, x).value, a));
      }
    }
  }

  /** A hole of 4 MiB inside a block of 16 MiB is not cut out. */
  lemma HoleKept()
    ensures
      var b, x := Range(0, 0x100_0000), Span(0x40_0000, 0x80_0000);
      ExcludeRange(b, x) == Some(b) && Left(ExcludeRange(b, x)) != Remaining(b, x)
  {
    ExcludeExact(Range(0, 0x100_0000), Span(0x40_0000, 0x80_0000));
  }

  function ExcludeAll(b: Range, xs: seq<Span>): Option<Range> {
    if xs == [] then Some(b)
    else
      var r := ExcludeAll(b, xs[..|xs| - 1]);
      if r.Some? then ExcludeRange(r.value, xs[|xs| - 1]) else None
  }

  /** Ranges that start at 0 are excluded exactly. */
  lemma {:induction false} ExcludeAllExact(b: Range, xs: seq<Span>, a: nat)
    requires forall i: nat | i < |xs| :: xs[i].lo == 0
    ensures a in Left(ExcludeAll(b, xs)) <==> Within(b, a) && forall i: nat | i < |xs| :: !xs[i].Contains(a)
  {
    if xs != [] {
      var n := |xs| - 1;
      ExcludeAllExact(b, xs[..n], a);
      var r := ExcludeAll(b, xs[..n]);
      if r.Some? {
        ExcludeExact(r.value, xs[n]);
        assert a in Remaining(r.value, xs[n]) <==> a in Left(r) && !xs[n].Contains(a);
      }
    }
  }

  /** `exclude_ranges`. */
  method ExcludeRanges(b: Range, xs: seq<Span>) returns (r: Option<Range>)
    ensures r == ExcludeAll(b, xs)
  {
    r := Some(b);
    var n := 0;
    while n < |xs|
      invariant n <= |xs| && r == ExcludeAll(b, xs[..n])
    {
      assert xs[..n + 1][..n] == xs[..n];
      if r.None? {
        NoneStays(b, xs, n);
        return;
      }
      r := ExcludeRange(r.value, xs[n]);
      n := n + 1;
    }
    assert xs[..n] == xs;
  }

  lemma {:induction false} NoneStays(b: Range, xs: seq<Span>, n: nat)
    requires n <= |xs| && ExcludeAll(b, xs[..n]) == None
    ensures ExcludeAll(b, xs) == None
  {
    if n < |xs| {
      assert xs[..|xs| - 1][..n] == xs[..n];
      NoneStays(b, xs[..|xs| - 1], n);
    } else {
      assert xs[..n] == xs;
    }
  }

  /** The lowest 8 MiB are kept for the kernel image and its page tables. */
  const KERNEL_SPAN := Span(0, 0x80_0000)

  datatype Descriptor = Descriptor(usable: bool, start: nat, pages: nat)
  {
    function Block(): Range { Range(start, pages * 0x1000) }

    predicate Proper() { start % 0x1000 == 0 && pages > 0 }
  }

  ghost predicate SeparateMap(table: seq<Descriptor>) {
    && (forall i: nat | i < |table| :: table[i].Proper())
    && (forall i: nat, j: nat | i < j < |table| :: Addresses(table[i].Block()) !! Addresses(table[j].Block()))
  }

  ghost predicate InMap(table: seq<Descriptor>, n: nat, a: nat)
    requires n <= |table|
  {
    !KERNEL_SPAN.Contains(a) && exists i: nat :: i < n && table[i].usable && a in Addresses(table[i].Block())
  }

  /** What is left of a descriptor. */
  lemma KernelCut(d: Descriptor, r: Option<Range>)
    requires d.Proper() && r == ExcludeAll(d.Block(), [KERNEL_SPAN])
    ensures r.Some? ==> r.value.Proper() && r.value.start >= KERNEL_SPAN.hi
    ensures forall a: nat :: (r.Some? && Within(r.value, a)) <==> Within(d.Block(), a) && !KERNEL_SPAN.Contains(a)
  {
  }

  ghost predicate Listed(blocks: seq<Range>, a: nat) { exists i: nat :: i < |blocks| && Within(blocks[i], a) }

  lemma ListedStep(table: seq<Descriptor>, n: nat, blocks: seq<Range>, r: Option<Range>, a: nat)
    requires n < |table| && (InMap(table, n, a) <==> Listed(blocks, a))
    requires r.Some? && Within(r.value, a) <==>
               table[n].usable && Within(table[n].Block(), a) && !KERNEL_SPAN.Contains(a)
    ensures InMap(table, n + 1, a) <==> Listed(if r.Some? then blocks + [r.value] else blocks, a)
  {
    var blocks' := if r.Some? then blocks + [r.value] else blocks;
    if InMap(table, n + 1, a) {
      var i: nat :| i < n + 1 && table[i].usable && a in Addresses(table[i].Block());
      if i < n {
        assert InMap(table, n, a);
        var j: nat :| j < |blocks| && Within(blocks[j], a);
        assert Within(blocks'[j], a);
      } else {
        assert Within(blocks'[|blocks|], a);
      }
    }
    if Listed(blocks', a) {
      var j: nat :| j < |blocks'| && Within(blocks'[j], a);
      if j < |blocks| {
        assert Listed(blocks, a);
      }
    }
  }

  /** The loop of `init_mm` that collects the free blocks: all usable memory above the kernel span. */
  method FreeBlocks(table: seq<Descriptor>) returns (blocks: seq<Range>)
    requires SeparateMap(table)
    ensures Separate(blocks)
    ensures forall i: nat | i < |blocks| :: blocks[i].start >= KERNEL_SPAN.hi
    ensures forall a: nat :: InMap(table, |table|, a) <==> Listed(blocks, a)
  {
    hide InMap, ExcludeAll;
    blocks := [];
    ghost var from: seq<nat> := [];
    NothingInMap(table);
    for n := 0 to |table|
      invariant |from| == |blocks| && forall i: nat | i < |blocks| :: from[i] < n && blocks[i].Proper()
      invariant forall i: nat | i < |blocks| :: Addresses(blocks[i]) <= Addresses(table[from[i]].Block())
      invariant forall i: nat, j: nat | i < j < |blocks| :: from[i] < from[j]
      invariant forall i: nat | i < |blocks| :: blocks[i].start >= KERNEL_SPAN.hi
      invariant forall a: nat :: InMap(table, n, a) <==> Listed(blocks, a)
    {
      var b := None;
      if table[n].usable {
        b := ExcludeRanges(table[n].Block(), [KERNEL_SPAN]);
        KernelCut(table[n], b);
      }
      ghost var blocks' := if b.Some? then blocks + [b.value] else blocks;
      forall a: nat
        ensures InMap(table, n + 1, a) <==> Listed(blocks', a)
      {
        ListedStep(table, n, blocks, b, a);
      }
      if b.Some? {
        blocks := blocks + [b.value];
        from := from + [n];
      }
    }
    SeparateBlocks(table, blocks, from);
  }

  lemma NothingInMap(table: seq<Descriptor>)
    ensures forall a: nat :: !InMap(table, 0, a)
  {
  }

  lemma SeparateBlocks(table: seq<Descriptor>, blocks: seq<Range>, from: seq<nat>)
    requires SeparateMap(table) && |from| == |blocks|
    requires forall i: nat | i < |blocks| :: from[i] < |table| && blocks[i].Proper()
    requires forall i: nat | i < |blocks| :: Addresses(blocks[i]) <= Addresses(table[from[i]].Block())
    requires forall i: nat, j: nat | i < j < |blocks| :: from[i] < from[j]
    ensures Separate(blocks)
  {
    forall i: nat, j: nat | i < j < |blocks|
      ensures RangePages(blocks[i]) !! RangePages(blocks[j])
    {
      assert Addresses(table[from[i]].Block()) !! Addresses(table[from[j]].Block());
      assert Addresses(blocks[i]) !! Addresses(blocks[j]);
      forall p: nat
        ensures p in RangePages(blocks[i]) <==> 0x1000 * p in Addresses(blocks[i])
        ensures p in RangePages(blocks[j]) <==> 0x1000 * p in Addresses(blocks[j])
      {
      }
    }
  }

  /** The usable pages above the kernel span. */
  ghost function UsablePages(table: seq<Descriptor>): iset<nat> {
    iset p: nat | InMap(table, |table|, 0x1000 * p)
  }

  lemma UsableIsHigh(table: seq<Descriptor>)
    ensures UsablePages(table) <= HighPages()
  {
  }

  /** The free pages after `init_mm`: usable, and all that `init` keeps of the blocks. */
  method InitAllocator(table: seq<Descriptor>) returns (a: PageAllocator, ghost blocks: seq<Range>)
    requires SeparateMap(table)
    ensures fresh(a) && a.Valid() && forall p: nat | a.IsFree(p) :: p in UsablePages(table)
    ensures forall a: nat :: InMap(table, |table|, a) <==> Listed(blocks, a)
    ensures Separate(blocks) && Tracks(Blocks(a.freeLists), AllKept(blocks, |blocks|))
  {
    var found := FreeBlocks(table);
    blocks := found;
    forall p: nat | p in AllKept(blocks, |blocks|) ensures p in UsablePages(table) {
      var i: nat :| i < |blocks| && p in KeptPages(blocks[i]);
      assert Within(blocks[i], 0x1000 * p);
    }
    a := new PageAllocator();
    a.Init(found);
  }

  /** From boot on, whatever is lent out or free is usable memory above the kernel span, and nothing is lent twice. */
  method BootAllocator(table: seq<Descriptor>, requests: seq<Request>, fixed: bool)
    returns (a: PageAllocator, answers: seq<Answer>, live: seq<Loan>, ghost history: seq<seq<set<nat>>>)
    requires SeparateMap(table)
    ensures a.Valid() && Accounted(Blocks(a.freeLists), live, UsablePages(table))
    ensures Serving(UsablePages(table), requests, fixed, history, answers) && |answers| == |requests|
    ensures live == Outstanding(requests, answers) && history[|answers|] == a.freeLists
  {
    ghost var blocks;
    a, blocks := InitAllocator(table);
    answers, live, history := Serve(a, requests, fixed, UsablePages(table));
  }

  ghost function HighPages(): iset<nat> { iset p: nat | 0x1000 * p >= KERNEL_SPAN.hi }

  /** The kernel span is the lowest 8 MiB. */
  lemma EightMegabytes(a: nat, p: nat)
    ensures KERNEL_SPAN.Contains(a) <==> a < 0x80_0000
    ensures p in HighPages() <==> p >= 0x800
  {
  }

  /** The page tables lie in the 2 MiB from 0x200000, so user frames from the allocator are never page tables. */
  lemma TablesApart(pages: Frames, b: Arena)
    requires b.base == 0x200 && |b.tables| <= 512 && forall f | f in pages :: f in HighPages()
    ensures FramesApart(pages, b)
  {
  }
}
