/** The physical page allocator, on byte addresses. */
module PhysicalPages {
  import opened BuddyBlocks
  import opened BuddyAddresses
  import opened BuddyRanges

  const PAGE_ORDER := 12

  // ---- addresses and block numbers ---------------------------------------

  ghost predicate AlignedList(s: set<nat>, k: nat) { forall a | a in s :: a % Bytes(k) == 0 }

  ghost predicate AlignedLists(ls: seq<set<nat>>) {
    |ls| == LEVELS && forall k: nat | k < LEVELS :: AlignedList(ls[k], k)
  }

  ghost function Numbers(s: set<nat>, k: nat): set<nat> { set a | a in s :: a / Bytes(k) }

  /** The lists by block numbers. */
  ghost function Blocks(ls: seq<set<nat>>): (r: Lists)
    ensures |r| == |ls|
  {
    seq(|ls|, k requires 0 <= k < |ls| => Numbers(ls[k], k))
  }

  lemma NumbersOf(s: set<nat>, k: nat, a: nat)
    requires k < LEVELS && AlignedList(s, k) && a % Bytes(k) == 0
    ensures AlignedList(s + {a}, k) && AlignedList(s - {a}, k)
    ensures a in s <==> a / Bytes(k) in Numbers(s, k)
    ensures Numbers(s + {a}, k) == Numbers(s, k) + {a / Bytes(k)}
    ensures Numbers(s - {a}, k) == Numbers(s, k) - {a / Bytes(k)}
  {
    hide Bytes;
    forall b | b in s && b / Bytes(k) == a / Bytes(k)
      ensures b == a
    {
      SameNumber(a, b, k);
    }
    assert a in s + {a};
    forall n | n in Numbers(s, k) + {a / Bytes(k)} ensures n in Numbers(s + {a}, k) {
      if n in Numbers(s, k) {
        var b :| b in s && b / Bytes(k) == n;
        assert b in s + {a};
      }
    }
    forall n | n in Numbers(s, k) - {a / Bytes(k)} ensures n in Numbers(s - {a}, k) {
      var b :| b in s && b / Bytes(k) == n;
      assert b in s - {a};
    }
  }

  lemma BlocksUpdate(ls: seq<set<nat>>, k: nat, s: set<nat>)
    requires AlignedLists(ls) && k < LEVELS && AlignedList(s, k)
    ensures AlignedLists(ls[k := s]) && Blocks(ls[k := s]) == Blocks(ls)[k := Numbers(s, k)]
  {
  }

  lemma ListedPage(ls: seq<set<nat>>, addr: nat)
    requires AlignedLists(ls) && addr in ls[0]
    ensures addr % 4096 == 0 && Covered(Blocks(ls), addr / 4096)
  {
    assert AlignedList(ls[0], 0) && Bytes(0) == 4096;
    assert Up(addr / 4096, 0) in Blocks(ls)[0];
  }

  /** `Underflow` stands for the subtraction `order - PAGE_SIZE_ORDER` on a smaller order: a panic, or with
      wrapping arithmetic an index beyond the lists and hence no block. */
  datatype AllocOutcome = Block(addr: nat) | NoBlock | Underflow

  ghost predicate IsLeast(s: set<nat>, m: nat) { m in s && forall a | a in s :: m <= a }

  lemma {:induction false} LeastExists(s: set<nat>)
    requires s != {}
    ensures exists m :: IsLeast(s, m)
    decreases s
  {
    var x :| x in s;
    var below := set a | a in s && a < x;
    if below == {} {
      assert forall a | a in s :: a !in below;
      assert IsLeast(s, x);
    } else {
      LeastExists(below);
      var m :| IsLeast(below, m);
      forall a | a in s ensures m <= a {
        assert a < x ==> a in below;
      }
      assert IsLeast(s, m);
    }
  }

  class PageAllocator {
    var freeLists: seq<set<nat>>

    ghost predicate Valid()
      reads this
    {
      AlignedLists(freeLists) && Tidy(Blocks(freeLists))
    }

    /** Page number `p` lies in a free block. */
    ghost predicate IsFree(p: nat)
      reads this
    {
      Covered(Blocks(freeLists), p)
    }

    constructor ()
      ensures freeLists == []
    {
      freeLists := [];
    }

    /** `init`. What becomes free are the pages of the ranges, except those of 1 MiB chunks inside one range; and
        all of these if and only if they fill no chunk (pieced together from several ranges). Of each chunk that they
        do fill, exactly one half becomes free (`Tracks`). */
    method Init(ranges: seq<Range>)
      requires freeLists == [] && Separate(ranges)
      modifies this
      ensures Valid() && Tracks(Blocks(freeLists), AllKept(ranges, |ranges|))
      ensures forall p: nat | IsFree(p) :: p in AllKept(ranges, |ranges|)
      ensures (forall p: nat :: IsFree(p) <==> p in AllKept(ranges, |ranges|)) <==>
                NoFullChunk(AllKept(ranges, |ranges|))
    {
      hide Tracks, NoFullChunk, KeptPages, RangePages, Covered, Tidy;
      for order := 0 to LEVELS
        invariant |freeLists| == order && forall k: nat | k < order :: freeLists[k] == {}
      {
        freeLists := freeLists + [{}];
      }
      ghost var all := AllKept(ranges, |ranges|);
      NothingTracked(freeLists);
      AllKeptStep(ranges, 0);
      for i := 0 to |ranges|
        invariant AlignedLists(freeLists) && Tracks(Blocks(freeLists), AllKept(ranges, i))
      {
        AllKeptStep(ranges, i);
        InitRange(ranges[i], AllKept(ranges, i));
      }
      TracksFacts(Blocks(freeLists), all);
      TracksAll(Blocks(freeLists), all);
    }

    /** The `loop` of `init`, over one range. */
    method InitRange(r: Range, ghost done: iset<nat>)
      requires r.Proper() && AlignedLists(freeLists) && Tracks(Blocks(freeLists), done)
      requires done !! RangePages(r)
      modifies this
      ensures AlignedLists(freeLists) && Tracks(Blocks(freeLists), done + KeptPages(r))
    {
      hide Tracks, Bytes, BuddyBlocks.Free, AlignedLists, Blocks, AtStart;
      var start, size := r.start, r.size;
      StartsAtStart(r);
      KeptEnds(r);
      assert done + KeptBelow(r, start) == done;
      while size > 0
        invariant r.start <= start && start + size == r.End() && start % 0x1000 == 0 && size % 0x1000 == 0
        invariant AlignedLists(freeLists) && Tracks(Blocks(freeLists), done + KeptBelow(r, start))
        invariant size > 0 ==> AtStart(r, start)
      {
        ghost var ls := Blocks(freeLists);
        var shift, k := InitBlock(start, size);
        InitProgress(ls, Blocks(freeLists), r, done, start, k);
        PageSum(start, size, shift);
        start := start + shift;
        size := size - shift;
      }
    }

    /** One turn of that loop: free the largest block that the test admits, or skip a chunk. */
    method InitBlock(start: nat, size: nat) returns (shift: nat, ghost k: nat)
      requires AlignedLists(freeLists) && start % 0x1000 == 0 && size % 0x1000 == 0 && size > 0
      modifies this
      ensures k <= LEVELS && shift == Bytes(k) <= size && start % Bytes(k) == 0 && AlignedLists(freeLists)
      ensures shift % 0x1000 == 0
      ensures k < LEVELS ==>
                && !(start % Bytes(k + 1) == 0 && Bytes(k + 1) <= size)
                && Blocks(freeLists) == BuddyBlocks.Free(old(Blocks(freeLists)), start / Bytes(k), k)
      ensures k == LEVELS ==> freeLists == old(freeLists)
    {
      assert Bytes(0) == 0x1000;
      shift := 0x1000;
      var order := PAGE_ORDER;
      while order < PAGE_ORDER + LEVELS
        invariant PAGE_ORDER <= order <= PAGE_ORDER + LEVELS && freeLists == old(freeLists)
        invariant shift == Bytes(order - PAGE_ORDER) <= size && start % shift == 0
      {
        var level := order - PAGE_ORDER;
        BuddyInRangeIff(start, level, size);
        if !IsBuddyInRange(start, level, start, size) {
          Free(start, order);
          k := level;
          return;
        }
        shift := 2 * Bytes(level);
        order := order + 1;
      }
      k := LEVELS;
    }

    /** `free`. */
    method Free(addr: nat, order: nat)
      requires PAGE_ORDER <= order < PAGE_ORDER + LEVELS && addr % Bytes(order - PAGE_ORDER) == 0
      requires AlignedLists(freeLists)
      modifies this
      ensures AlignedLists(freeLists)
      ensures
        var k := order - PAGE_ORDER;
        Blocks(freeLists) == BuddyBlocks.Free(old(Blocks(freeLists)), addr / Bytes(k), k)
      decreases PAGE_ORDER + LEVELS - order
    {
      hide Bytes, Numbers, AlignedList;
      var k := order - PAGE_ORDER;
      var buddy := FlipBit(addr, Bytes(k));
      FlipNumber(addr, k);
      NumbersOf(freeLists[k], k, buddy);
      var found := buddy in freeLists[k];
      ghost var ls := freeLists;
      BlocksUpdate(freeLists, k, freeLists[k] - {buddy});
      freeLists := freeLists[k := freeLists[k] - {buddy}];
      if found && k + 1 < |freeLists| {
        ClearNumber(addr, k);
        Free(ClearBit(addr, Bytes(k)), order + 1);
      } else {
        NumbersOf(freeLists[k], k, addr);
        BlocksUpdate(freeLists, k, freeLists[k] + {addr});
        freeLists := freeLists[k := freeLists[k] + {addr}];
      }
    }

    /** `allocate`. As written, the search for a larger block passes `list_idx + 1` where an order is meant;
        with `fixed` it passes `order + 1`. */
    method AllocateWith(order: nat, fixed: bool) returns (r: AllocOutcome)
      requires |freeLists| <= LEVELS && (fixed ==> Valid())
      modifies this
      ensures !fixed ==> r == Written(old(freeLists), order) && freeLists == AfterWritten(old(freeLists), order)
      ensures fixed ==> Valid() && (!r.Block? ==> freeLists == old(freeLists))
      ensures fixed && PAGE_ORDER <= order < PAGE_ORDER + LEVELS ==>
                var k := order - PAGE_ORDER;
                && (r.Block? <==> exists j: nat | k <= j < LEVELS :: old(freeLists)[j] != {})
                && (r.Block? ==> r.addr % Bytes(k) == 0)
                && (r.Block? ==> Took(old(Blocks(freeLists)), Blocks(freeLists), r.addr / Bytes(k), k))
                && (r.Block? ==> r.addr == Lowest(old(freeLists), k))
      ensures fixed && !(PAGE_ORDER <= order < PAGE_ORDER + LEVELS) ==> !r.Block?
      decreases if fixed then PAGE_ORDER + LEVELS - order else order
    {
      hide Bytes, Numbers, AlignedList, Tidy, Took;
      if order < PAGE_ORDER {
        return Underflow;
      }
      var k := order - PAGE_ORDER;
      if k >= |freeLists| {
        return NoBlock;
      }
      if freeLists[k] != {} {
        assert IsLeast(freeLists[k], Least(freeLists[k]));
        var addr :| addr in freeLists[k] && forall b | b in freeLists[k] :: addr <= b;
        TakeAddress(freeLists, addr, k, fixed);
        freeLists := freeLists[k := freeLists[k] - {addr}];
        return Block(addr);
      }
      var large := AllocateWith(if fixed then order + 1 else k + 1, fixed);
      if !large.Block? {
        return large;
      }
      var buddy := FlipBit(large.addr, Bytes(k));
      SplitAddress(old(Blocks(freeLists)), freeLists, large.addr, k);
      freeLists := freeLists[k := freeLists[k] + {buddy}];
      r := large;
    }

    /** `allocate`, as written. */
    method Allocate(order: nat) returns (r: AllocOutcome)
      requires |freeLists| <= LEVELS
      modifies this
      ensures r == Written(old(freeLists), order) && freeLists == AfterWritten(old(freeLists), order)
    {
      r := AllocateWith(order, false);
    }
  }

  /** One free block of 512 KiB. */
  function OneBigBlock(): seq<set<nat>> { [{}, {}, {}, {}, {}, {}, {}, {0}] }

  /** As written, no page is found in it; with the repaired split `AllocateWith` finds one. */
  lemma Starved()
    ensures AlignedLists(OneBigBlock()) && Tidy(Blocks(OneBigBlock()))
    ensures (forall p: nat | p < 128 :: Covered(Blocks(OneBigBlock()), p))
    ensures Written(OneBigBlock(), PAGE_ORDER) == Underflow
  {
    hide Up;
    var ls := Blocks(OneBigBlock());
    BigBlockNumbers();
    forall p: nat | p < 128 ensures Covered(ls, p) {
      UpBytes(p, 7);
      assert Up(p, 7) in ls[7];
    }
  }

  lemma BigBlockNumbers()
    ensures AlignedLists(OneBigBlock()) && (forall k: nat | k < 7 :: Blocks(OneBigBlock())[k] == {})
    ensures Blocks(OneBigBlock())[7] == {0}
  {
    assert 0 / Bytes(7) == 0;
  }

  /** What `allocate` returns: it never finds a block by splitting. */
  ghost function Written(ls: seq<set<nat>>, order: nat): AllocOutcome {
    if order < PAGE_ORDER then Underflow
    else if order - PAGE_ORDER >= |ls| then NoBlock
    else if ls[order - PAGE_ORDER] == {} then Underflow
    else Block(Least(ls[order - PAGE_ORDER]))
  }

  ghost function AfterWritten(ls: seq<set<nat>>, order: nat): seq<set<nat>> {
    if Written(ls, order).Block? then
      var k := order - PAGE_ORDER;
      ls[k := ls[k] - {Least(ls[k])}]
    else ls
  }

  ghost function Least(s: set<nat>): (m: nat)
    requires s != {}
    ensures IsLeast(s, m)
  {
    LeastExists(s);
    var m :| IsLeast(s, m);
    m
  }

  /** The lowest block of the smallest sufficient size. */
  ghost function Lowest(ls: seq<set<nat>>, k: nat): nat
    decreases |ls| - k
  {
    if k >= |ls| then 0 else if ls[k] != {} then Least(ls[k]) else Lowest(ls, k + 1)
  }

  /** A page is what is asked for with order 12. */
  lemma OrderTwelve(ls: seq<set<nat>>)
    requires |ls| > 0 && ls[0] != {}
    ensures Written(ls, 12) == Block(Least(ls[0])) && AfterWritten(ls, 12) == ls[0 := ls[0] - {Least(ls[0])}]
  {
  }

  lemma TakeAddress(ls: seq<set<nat>>, addr: nat, k: nat, fixed: bool)
    requires k < |ls| <= LEVELS && addr in ls[k] && (fixed ==> AlignedLists(ls) && Tidy(Blocks(ls)))
    ensures fixed ==> addr % Bytes(k) == 0 && AlignedLists(ls[k := ls[k] - {addr}])
    ensures fixed ==> Tidy(Blocks(ls[k := ls[k] - {addr}]))
    ensures fixed ==> Took(Blocks(ls), Blocks(ls[k := ls[k] - {addr}]), addr / Bytes(k), k)
  {
    if fixed {
      hide Tidy, Took, Bytes;
      assert AlignedList(ls[k], k);
      NumbersOf(ls[k], k, addr);
      BlocksUpdate(ls, k, ls[k] - {addr});
      TakeListed(Blocks(ls), addr / Bytes(k), k);
      TookTidy(Blocks(ls), Blocks(ls[k := ls[k] - {addr}]), addr / Bytes(k), k);
    }
  }

  lemma TookTidy(ls: Lists, ls': Lists, i: nat, k: nat)
    requires Took(ls, ls', i, k)
    ensures Tidy(ls')
  {
  }

  lemma SplitAddress(was: Lists, ls: seq<set<nat>>, addr: nat, k: nat)
    requires k + 1 < LEVELS && AlignedLists(ls) && addr % Bytes(k + 1) == 0
    requires Took(was, Blocks(ls), addr / Bytes(k + 1), k + 1)
    ensures addr % Bytes(k) == 0
    ensures
      var ls' := ls[k := ls[k] + {FlipBit(addr, Bytes(k))}];
      AlignedLists(ls') && Took(was, Blocks(ls'), addr / Bytes(k), k) && Tidy(Blocks(ls'))
  {
    hide Bytes, Took, Tidy;
    HalfNumber(addr, k);
    FlipNumber(addr, k);
    var buddy := FlipBit(addr, Bytes(k));
    assert AlignedList(ls[k], k);
    NumbersOf(ls[k], k, buddy);
    BlocksUpdate(ls, k, ls[k] + {buddy});
    TakeHalf(was, Blocks(ls), addr / Bytes(k + 1), k);
    TookTidy(was, Blocks(ls[k := ls[k] + {buddy}]), addr / Bytes(k), k);
  }

  // ---- init --------------------------------------------------------------

  ghost predicate Separate(ranges: seq<Range>) {
    && (forall i: nat | i < |ranges| :: ranges[i].Proper())
    && (forall i: nat, j: nat | i < j < |ranges| :: RangePages(ranges[i]) !! RangePages(ranges[j]))
  }

  /** The pages that the first `n` ranges contribute. */
  ghost function AllKept(ranges: seq<Range>, n: nat): iset<nat>
    requires n <= |ranges|
  {
    iset i: nat, p: nat | i < n && p in KeptPages(ranges[i]) :: p
  }

  lemma AllKeptStep(ranges: seq<Range>, n: nat)
    requires Separate(ranges) && n <= |ranges|
    ensures AllKept(ranges, 0) == iset{}
    ensures n < |ranges| ==>
              && AllKept(ranges, n + 1) == AllKept(ranges, n) + KeptPages(ranges[n])
              && AllKept(ranges, n) !! RangePages(ranges[n]) && KeptPages(ranges[n]) <= AllKept(ranges, |ranges|)
  {
  }

  lemma NothingTracked(ls: seq<set<nat>>)
    requires |ls| == LEVELS && forall k: nat | k < LEVELS :: ls[k] == {}
    ensures AlignedLists(ls) && Tracks(Blocks(ls), iset{})
  {
    forall c: nat ensures !ChunkInside(c, iset{}) {
      FirstUp(c, LEVELS);
    }
  }

  lemma TracksFacts(ls: Lists, done: iset<nat>)
    requires Tracks(ls, done)
    ensures Tidy(ls) && forall p: nat | Covered(ls, p) :: p in done
  {
  }

  lemma KeptEnds(r: Range)
    ensures KeptBelow(r, r.start) == iset{} && KeptBelow(r, r.End()) == KeptPages(r)
  {
  }

  lemma InitProgress(ls: Lists, ls': Lists, r: Range, done: iset<nat>, pos: nat, k: nat)
    requires r.Proper() && Tracks(ls, done + KeptBelow(r, pos)) && done !! RangePages(r)
    requires r.start <= pos && k <= LEVELS && pos % Bytes(k) == 0 && pos + Bytes(k) <= r.End() && AtStart(r, pos)
    requires if k == LEVELS then ls' == ls
             else !(pos % Bytes(k + 1) == 0 && Bytes(k + 1) <= r.End() - pos) && ls' == Free(ls, pos / Bytes(k), k)
    ensures Tracks(ls', done + KeptBelow(r, pos + Bytes(k))) && AtStart(r, pos + Bytes(k))
  {
    if k == LEVELS {
      SkippedChunk(r, pos);
    } else {
      FreedOutside(r, pos, k);
      FreedChunk(r, pos, k);
      hide Tracks, Free, Bytes, AtStart;
      var block := PagesOf(pos / Bytes(k), k);
      forall p: nat | p in block
        ensures p !in KeptBelow(r, pos) && p in KeptPages(r)
      {
        PageInBlock(p, pos, k);
        assert p in KeptBelow(r, pos + Bytes(k));
      }
      FreeTracks(ls, done + KeptBelow(r, pos), pos / Bytes(k), k);
      assert done + KeptBelow(r, pos) + block == done + KeptBelow(r, pos + Bytes(k));
    }
  }
}
