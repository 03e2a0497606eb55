/** The memory ranges handed to the page allocator, and how `init` cuts them into blocks. */
module BuddyRanges {
  import opened BuddyBlocks
  import opened BuddyAddresses

  // ---- is_buddy_in_range -------------------------------------------------

  predicate IsBuddyInRange(addr: nat, k: nat, start: nat, size: nat)
    decreases k
  {
    var buddy := FlipBit(addr, Bytes(k));
    start <= buddy < start + size && (k > 0 ==> IsBuddyInRange(buddy, k - 1, start, size))
  }

  /** From an address whose bit is clear, all further buddies are found upwards. */
  lemma {:induction false} BuddiesAbove(addr: nat, k: nat, start: nat, size: nat)
    requires k < LEVELS && start % 0x1000 == 0 && size % 0x1000 == 0
    requires start <= addr && addr % Bytes(k + 1) == 0
    ensures IsBuddyInRange(addr, k, start, size) <==> addr + Bytes(k + 1) <= start + size
    decreases k
  {
    ClearBelow(addr, k);
    if k > 0 {
      BuddiesAbove(addr + Bytes(k), k - 1, start, size);
    }
  }

  lemma ClearBelow(addr: nat, k: nat)
    requires k < LEVELS && addr % Bytes(k + 1) == 0
    ensures addr / Bytes(k) % 2 == 0 && (addr + Bytes(k)) % Bytes(k) == 0 && addr % 0x1000 == 0
    ensures Bytes(k + 1) == 2 * Bytes(k)
  {
    HalfNumber(addr, k);
    NextNumber(addr, k);
    AlignedBelow(addr, k, 0);
  }

  /** The test of `init`: the block of the next larger order still fits. */
  lemma BuddyInRangeIff(start: nat, k: nat, size: nat)
    requires k < LEVELS && start % Bytes(k) == 0 && start % 0x1000 == 0 && size % 0x1000 == 0
    ensures IsBuddyInRange(start, k, start, size) <==> start % Bytes(k + 1) == 0 && Bytes(k + 1) <= size
  {
    EvenNumber(start, k);
    if start % Bytes(k + 1) == 0 {
      BuddiesAbove(start, k, start, size);
    }
  }

  // ---- ranges ------------------------------------------------------------

  datatype Range = Range(start: nat, size: nat)
  {
    function End(): nat { start + size }

    /** Page-aligned and not empty. */
    predicate Proper() { start % 0x1000 == 0 && size % 0x1000 == 0 && size > 0 }
  }

  ghost function RangePages(r: Range): iset<nat> { iset p: nat | r.start <= 0x1000 * p < r.End() }

  /** The pages of a range that `init` frees: those whose 1 MiB chunk is not inside the range. */
  ghost function KeptPages(r: Range): iset<nat> {
    iset p: nat | p in RangePages(r) && !ChunkInside(Up(p, LEVELS), RangePages(r))
  }

  ghost function KeptBelow(r: Range, pos: nat): iset<nat> { iset p: nat | p in KeptPages(r) && 0x1000 * p < pos }

  /** The position of `init` within a range: if the chunk around it is inside the range, it is at its start. */
  ghost predicate AtStart(r: Range, pos: nat) {
    ChunkInside(pos / CHUNK, RangePages(r)) ==> pos % CHUNK == 0
  }

  lemma ChunkInsideIff(c: nat, r: Range)
    requires r.Proper()
    ensures ChunkInside(c, RangePages(r)) <==> r.start <= c * CHUNK && (c + 1) * CHUNK <= r.End()
  {
    hide Up, Bytes;
    ChunkBytes();
    var lo, hi := c * 256, c * 256 + 255;
    assert lo * 0x1000 == c * CHUNK;
    UpBytes(lo, LEVELS);
    UpBytes(hi, LEVELS);
    if r.start <= c * CHUNK && (c + 1) * CHUNK <= r.End() {
      forall p: nat | Up(p, LEVELS) == c
        ensures p in RangePages(r)
      {
        UpBytes(p, LEVELS);
      }
    }
  }

  lemma StartsAtStart(r: Range)
    requires r.Proper()
    ensures AtStart(r, r.start)
  {
    ChunkInsideIff(r.start / CHUNK, r);
  }

  /** A block that `init` frees lies in a chunk that is not inside the range. */
  lemma FreedOutside(r: Range, pos: nat, k: nat)
    requires r.Proper() && k < LEVELS && r.start <= pos && AtStart(r, pos)
    requires pos <= r.End() && !(pos % Bytes(k + 1) == 0 && Bytes(k + 1) <= r.End() - pos)
    ensures !ChunkInside(pos / CHUNK, RangePages(r))
  {
    if ChunkInside(pos / CHUNK, RangePages(r)) {
      ChunkInsideIff(pos / CHUNK, r);
      AlignedBelow(pos, LEVELS, k + 1);
    }
  }

  lemma FreedChunk(r: Range, pos: nat, k: nat)
    requires r.Proper() && k < LEVELS && pos % Bytes(k) == 0 && r.start <= pos && pos + Bytes(k) <= r.End()
    requires !ChunkInside(pos / CHUNK, RangePages(r))
    ensures AtStart(r, pos + Bytes(k))
    ensures KeptBelow(r, pos + Bytes(k)) == KeptBelow(r, pos) + PagesOf(pos / Bytes(k), k)
  {
    hide Bytes, ChunkInside, Up;
    SameChunk(pos, k);
    forall p: nat
      ensures p in PagesOf(pos / Bytes(k), k) <==> pos <= 0x1000 * p < pos + Bytes(k)
      ensures p in PagesOf(pos / Bytes(k), k) ==> p in KeptPages(r)
    {
      PageInBlock(p, pos, k);
      if Up(p, k) == pos / Bytes(k) {
        ChunkOfPage(p, pos, k);
      }
    }
  }

  lemma ChunkOfPage(p: nat, pos: nat, k: nat)
    requires k < LEVELS && pos % Bytes(k) == 0 && Up(p, k) == pos / Bytes(k)
    ensures Up(p, LEVELS) == pos / CHUNK
  {
    hide Bytes, Up;
    AlignedBelow(pos, k, 0);
    var q := FirstPage(pos);
    UpBytes(q, k);
    UpBytes(q, LEVELS);
    UpAdd(p, k, LEVELS - k);
    UpAdd(q, k, LEVELS - k);
    ChunkBytes();
  }

  lemma FirstPage(pos: nat) returns (q: nat)
    requires pos % Bytes(0) == 0
    ensures 0x1000 * q == pos
  {
    q := pos / 0x1000;
  }

  lemma ChunkBytes()
    ensures Bytes(LEVELS) == CHUNK
  {
  }

  lemma SameChunk(pos: nat, k: nat)
    requires k < LEVELS && pos % Bytes(k) == 0
    ensures (pos + Bytes(k)) / CHUNK == pos / CHUNK || (pos + Bytes(k)) % CHUNK == 0
  {
  }

  /** A skipped chunk. */
  lemma SkippedChunk(r: Range, pos: nat)
    requires r.Proper() && pos % CHUNK == 0 && r.start <= pos && pos + CHUNK <= r.End()
    ensures AtStart(r, pos + CHUNK) && KeptBelow(r, pos + CHUNK) == KeptBelow(r, pos)
  {
    ChunkInsideIff(pos / CHUNK, r);
    forall p: nat | pos <= 0x1000 * p < pos + CHUNK
      ensures p !in KeptPages(r)
    {
      UpBytes(p, LEVELS);
    }
  }

  /** Blocks have 4 KiB to 512 KiB. */
  lemma BlockSizes()
    ensures LEVELS == 8 && Bytes(0) == 0x1000 && Bytes(7) == 0x8_0000 && CHUNK == 0x10_0000
  {
  }

  /** Of the megabyte at 0x900000, given as one range, `init` keeps no page. */
  lemma MegabyteLost(r: Range)
    requires r == Range(0x90_0000, 0x10_0000)
    ensures r.Proper() && 0x900 in RangePages(r) && KeptPages(r) == iset{}
  {
    ChunkInsideIff(9, r);
    forall p: nat | p in RangePages(r) ensures p !in KeptPages(r) {
      UpBytes(p, LEVELS);
    }
  }

  /** Given as two ranges, its pages are all kept, and fill the chunk. */
  lemma HalvesFill(r: Range, q: Range)
    requires r == Range(0x90_0000, 0x8_0000) && q == Range(0x98_0000, 0x8_0000)
    ensures r.Proper() && q.Proper() && RangePages(r) !! RangePages(q)
    ensures ChunkInside(9, KeptPages(r) + KeptPages(q))
  {
    ChunkInsideIff(9, r);
    ChunkInsideIff(9, q);
    forall p: nat | Up(p, LEVELS) == 9 ensures p in KeptPages(r) || p in KeptPages(q) {
      UpBytes(p, LEVELS);
    }
  }
}
