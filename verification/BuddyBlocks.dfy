/** The blocks of the buddy allocator. Level `k` is order 12 + k; the block with number `i` at level `k` starts
    at address i * 2^(12 + k). A page is the block of level 0 with its number. */
module BuddyBlocks {

  const LEVELS := 8

  /** The number, `n` levels up, of the block that contains block `i`. */
  function Up(i: nat, n: nat): nat {
    if n == 0 then i else Up(i, n - 1) / 2
  }

  lemma {:induction false} UpAdd(i: nat, m: nat, n: nat)
    ensures Up(Up(i, m), n) == Up(i, m + n)
  {
    if n > 0 {
      UpAdd(i, m, n - 1);
    }
  }

  lemma UpOne(i: nat)
    ensures Up(i, 0) == i && Up(i, 1) == i / 2
  {
  }

  /** The first page of a block. */
  function First(i: nat, k: nat): nat
    decreases k
  {
    if k == 0 then i else First(2 * i, k - 1)
  }

  lemma {:induction false} FirstUp(i: nat, k: nat)
    ensures Up(First(i, k), k) == i
    decreases k
  {
    if k > 0 {
      FirstUp(2 * i, k - 1);
    }
  }

  /** `addr ^ block_size`. */
  function Buddy(i: nat): nat { if i % 2 == 0 then i + 1 else i - 1 }

  type Lists = seq<set<nat>>

  /** Page `p` lies in a listed block. */
  ghost predicate Covered(ls: Lists, p: nat) {
    exists k: nat :: k < |ls| && Up(p, k) in ls[k]
  }

  ghost predicate Disjoint(ls: Lists) {
    forall p: nat, j: nat, k: nat {:trigger Up(p, j), Up(p, k)} |
      j < |ls| && k < |ls| && Up(p, j) in ls[j] && Up(p, k) in ls[k] :: j == k
  }

  ghost predicate NoPairs(ls: Lists) {
    forall k: nat, i: nat | k < |ls| && i in ls[k] :: Buddy(i) !in ls[k]
  }

  /** Listed blocks do not overlap, and no two of them are buddies. */
  ghost predicate Tidy(ls: Lists) {
    |ls| == LEVELS && Disjoint(ls) && NoPairs(ls)
  }

  /** No page of the block is listed. */
  ghost predicate Unlisted(ls: Lists, i: nat, k: nat) {
    forall p: nat | Up(p, k) == i :: !Covered(ls, p)
  }

  // ---- free --------------------------------------------------------------

  /** `free`: merge with the buddy as long as it is listed; at the top the buddy is removed all the same. */
  function Free(ls: Lists, i: nat, k: nat): (r: Lists)
    requires |ls| == LEVELS && k < LEVELS
    ensures |r| == LEVELS
    decreases LEVELS - k
  {
    var rest := ls[k := ls[k] - {Buddy(i)}];
    if Buddy(i) in ls[k] && k + 1 < LEVELS then Free(rest, i / 2, k + 1)
    else rest[k := rest[k] + {i}]
  }

  /** The 1 MiB chunk around the block is free, once the block is. */
  ghost predicate ChunkFull(ls: Lists, i: nat, k: nat)
    requires k < LEVELS
  {
    forall p: nat | Up(p, LEVELS) == Up(i, LEVELS - k) :: Covered(ls, p) || Up(p, k) == i
  }

  /** The other half of that chunk. */
  predicate OtherHalf(i: nat, k: nat, p: nat)
    requires k < LEVELS
  {
    Up(p, LEVELS - 1) == Buddy(Up(i, LEVELS - 1 - k))
  }

  /** A fully free block lies in a listed block: merging is complete. */
  lemma {:induction false} Merged(ls: Lists, i: nat, k: nat) returns (j: nat)
    requires Tidy(ls) && k < LEVELS && forall p: nat | Up(p, k) == i :: Covered(ls, p)
    ensures k <= j < LEVELS && Up(i, j - k) in ls[j]
    decreases k
  {
    FirstUp(i, k);
    if k == 0 {
      assert Covered(ls, i);
      j :| j < |ls| && Up(i, j) in ls[j];
    } else {
      var l := Merged(ls, 2 * i, k - 1);
      var r := Merged(ls, 2 * i + 1, k - 1);
      UpAdd(2 * i, 1, if l < k then 0 else l - k);
      UpAdd(2 * i + 1, 1, if r < k then 0 else r - k);
      assert Up(2 * i, 1) == i && Up(2 * i + 1, 1) == i;
      j := if l < k then r else l;
      assert Buddy(2 * i) == 2 * i + 1;
    }
  }

  lemma TakeOut(ls: Lists, i: nat, k: nat)
    requires Tidy(ls) && k < LEVELS && i in ls[k]
    ensures Tidy(ls[k := ls[k] - {i}])
    ensures forall p: nat :: Covered(ls[k := ls[k] - {i}], p) <==> Covered(ls, p) && Up(p, k) != i
  {
  }

  lemma PutIn(ls: Lists, i: nat, k: nat)
    requires Tidy(ls) && k < LEVELS && Unlisted(ls, i, k) && Buddy(i) !in ls[k]
    ensures Tidy(ls[k := ls[k] + {i}])
    ensures forall p: nat :: Covered(ls[k := ls[k] + {i}], p) <==> Covered(ls, p) || Up(p, k) == i
  {
  }

  lemma Halves(p: nat, k: nat, i: nat)
    ensures Up(p, k + 1) == i / 2 <==> Up(p, k) == i || Up(p, k) == Buddy(i)
  {
  }

  /** In a free chunk the buddy is listed, or lies with the block in a larger listed block. */
  lemma BuddyOfFull(ls: Lists, i: nat, k: nat)
    requires Tidy(ls) && k < LEVELS && ChunkFull(ls, i, k)
    ensures Buddy(i) in ls[k] || Covered(ls, First(i, k))
  {
    hide Disjoint, NoPairs;
    forall p: nat | Up(p, k) == Buddy(i)
      ensures Covered(ls, p)
    {
      Halves(p, k, i);
      UpAdd(p, k + 1, LEVELS - k - 1);
      UpAdd(i, 1, LEVELS - k - 1);
      assert Up(i, 1) == i / 2;
    }
    var j := Merged(ls, Buddy(i), k);
    if j > k {
      FirstUp(i, k);
      UpAdd(First(i, k), k, j - k);
      UpAdd(i, 1, j - k - 1);
      UpAdd(Buddy(i), 1, j - k - 1);
      assert Up(i, 1) == Up(Buddy(i), 1);
    }
  }

  /** If the buddy is not listed, the chunk is not free. */
  lemma NotFull(ls: Lists, i: nat, k: nat)
    requires Tidy(ls) && k < LEVELS && Unlisted(ls, i, k) && Buddy(i) !in ls[k]
    ensures !ChunkFull(ls, i, k)
  {
    FirstUp(i, k);
    if ChunkFull(ls, i, k) {
      BuddyOfFull(ls, i, k);
    }
  }

  /** The free pages grow by exactly the freed block, unless the 1 MiB chunk around it becomes free: then
      the half of the chunk that the block is not in is lost. */
  lemma {:induction false} FreeEffect(ls: Lists, i: nat, k: nat)
    requires Tidy(ls) && k < LEVELS && Unlisted(ls, i, k)
    ensures Tidy(Free(ls, i, k))
    ensures forall p: nat :: Covered(Free(ls, i, k), p) <==>
              (Covered(ls, p) || Up(p, k) == i) && !(ChunkFull(ls, i, k) && OtherHalf(i, k, p))
    decreases LEVELS - k
  {
    hide Covered, Disjoint, NoPairs, Up;
    UpOne(i);
    if Buddy(i) !in ls[k] {
      PutIn(ls, i, k);
      NotFull(ls, i, k);
      assert ls[k] - {Buddy(i)} == ls[k];
      assert Free(ls, i, k) == ls[k := ls[k] + {i}];
    } else {
      var rest := ls[k := ls[k] - {Buddy(i)}];
      TakeOut(ls, Buddy(i), k);
      FreeWithBuddy(ls, rest, i, k);
      if k + 1 < LEVELS {
        FreeEffect(rest, i / 2, k + 1);
        UpAdd(i, 1, LEVELS - k - 1);
        UpAdd(i, 1, LEVELS - k - 2);
      } else {
        PutIn(rest, i, k);
        FullAtTop(ls, i);
      }
    }
  }

  /** The upper half of the first 1 MiB is free. */
  function UpperHalf(): Lists { [{}, {}, {}, {}, {}, {}, {}, {1}] }

  /** Freeing the lower half loses it. */
  lemma HalfLost()
    ensures Tidy(UpperHalf()) && Unlisted(UpperHalf(), 0, 7)
    ensures forall p: nat | Up(p, 7) == 1 :: Covered(UpperHalf(), p) && !Covered(Free(UpperHalf(), 0, 7), p)
  {
    var ls := UpperHalf();
    forall p: nat ensures Covered(ls, p) <==> Up(p, 7) == 1 {
      assert Up(p, 7) == 1 ==> Up(p, 7) in ls[7];
    }
    FreeEffect(ls, 0, 7);
    assert Buddy(0) == 1 && Up(0, 0) == 0;
    FullAtTop(ls, 0);
  }

  lemma FullAtTop(ls: Lists, i: nat)
    requires |ls| == LEVELS && Buddy(i) in ls[LEVELS - 1]
    ensures ChunkFull(ls, i, LEVELS - 1)
  {
    forall p: nat | Up(p, LEVELS) == Up(i, 1)
      ensures Covered(ls, p) || Up(p, LEVELS - 1) == i
    {
      assert Up(i, 1) == i / 2;
      Halves(p, LEVELS - 1, i);
      assert Up(p, LEVELS - 1) == Buddy(i) ==> Up(p, LEVELS - 1) in ls[LEVELS - 1];
    }
  }

  lemma FreeWithBuddy(ls: Lists, rest: Lists, i: nat, k: nat)
    requires Tidy(ls) && k < LEVELS && Unlisted(ls, i, k) && Buddy(i) in ls[k] && rest == ls[k := ls[k] - {Buddy(i)}]
    requires forall p: nat :: Covered(rest, p) <==> Covered(ls, p) && Up(p, k) != Buddy(i)
    ensures Unlisted(rest, i / 2, k + 1) && Unlisted(rest, i, k)
    ensures forall p: nat :: Covered(rest, p) || Up(p, k + 1) == i / 2 <==> Covered(ls, p) || Up(p, k) == i
  {
  }

  // ---- allocate ----------------------------------------------------------

  /** Block `i` of level `k` was free and no longer is; nothing else changed. */
  ghost predicate Took(ls: Lists, ls': Lists, i: nat, k: nat) {
    && Tidy(ls')
    && (forall p: nat | Up(p, k) == i :: Covered(ls, p))
    && (forall p: nat :: Covered(ls', p) <==> Covered(ls, p) && Up(p, k) != i)
  }

  lemma TakeListed(ls: Lists, i: nat, k: nat)
    requires Tidy(ls) && k < LEVELS && i in ls[k]
    ensures Took(ls, ls[k := ls[k] - {i}], i, k)
  {
  }

  /** Splitting a block: the upper half goes back on the list. */
  lemma TakeHalf(ls: Lists, ls': Lists, i: nat, k: nat)
    requires Took(ls, ls', i, k + 1) && k + 1 < LEVELS
    ensures Took(ls, ls'[k := ls'[k] + {2 * i + 1}], 2 * i, k)
  {
    hide Covered, Disjoint, NoPairs;
    forall p: nat
      ensures Up(p, k + 1) == i <==> Up(p, k) == 2 * i || Up(p, k) == 2 * i + 1
    {
      Halves(p, k, 2 * i);
    }
    NotListed(ls', 2 * i, k);
    PutIn(ls', 2 * i + 1, k);
  }

  lemma NotListed(ls: Lists, i: nat, k: nat)
    requires Unlisted(ls, i, k) && k < |ls|
    ensures i !in ls[k]
  {
    FirstUp(i, k);
    assert Up(First(i, k), k) in ls[k] ==> Covered(ls, First(i, k));
  }

  /** No 1 MiB chunk is ever free as a whole. */
  lemma NoFreeChunk(ls: Lists, c: nat)
    requires Tidy(ls)
    ensures exists p: nat :: Up(p, LEVELS) == c && !Covered(ls, p)
  {
    if forall p: nat | Up(p, LEVELS) == c :: Covered(ls, p) {
      forall p: nat | Up(p, LEVELS - 1) == 2 * c || Up(p, LEVELS - 1) == 2 * c + 1
        ensures Covered(ls, p)
      {
        Halves(p, LEVELS - 1, 2 * c);
      }
      assert Up(2 * c, 0) == 2 * c && Up(2 * c + 1, 0) == Buddy(2 * c);
      var l := Merged(ls, 2 * c, LEVELS - 1);
      var r := Merged(ls, 2 * c + 1, LEVELS - 1);
      assert false;
    }
  }

  // ---- init --------------------------------------------------------------

  ghost predicate ChunkInside(c: nat, pages: iset<nat>) {
    forall p: nat | Up(p, LEVELS) == c :: p in pages
  }

  /** No 1 MiB chunk lies wholly in the set. */
  ghost predicate NoFullChunk(pages: iset<nat>) {
    forall c: nat :: !ChunkInside(c, pages)
  }

  /** Of the 1 MiB chunk, exactly one half is free. */
  ghost predicate HalfFree(ls: Lists, c: nat) {
    exists h: nat :: h / 2 == c && OnlyHalf(ls, c, h)
  }

  ghost predicate OnlyHalf(ls: Lists, c: nat, h: nat) {
    forall p: nat | Up(p, LEVELS) == c :: Covered(ls, p) <==> Up(p, LEVELS - 1) == h
  }

  /** What is free once the pages `done` have been handed in: of a chunk that they do not fill, exactly those pages;
      of a chunk that they fill, exactly one half. */
  ghost predicate Tracks(ls: Lists, done: iset<nat>) {
    && Tidy(ls)
    && (forall p: nat | Covered(ls, p) :: p in done)
    && (forall p: nat | p in done && !ChunkInside(Up(p, LEVELS), done) :: Covered(ls, p))
    && (forall c: nat | ChunkInside(c, done) :: HalfFree(ls, c))
  }

  ghost function PagesOf(i: nat, k: nat): iset<nat> { iset p: nat | Up(p, k) == i }

  /** Handing in one more block. */
  lemma FreeTracks(ls: Lists, done: iset<nat>, i: nat, k: nat)
    requires Tracks(ls, done) && k < LEVELS && done !! PagesOf(i, k)
    ensures Tracks(Free(ls, i, k), done + PagesOf(i, k))
  {
    hide Covered, Disjoint, NoPairs, Free, HalfFree;
    FreeEffect(ls, i, k);
    var ls', done', c0 := Free(ls, i, k), done + PagesOf(i, k), Up(i, LEVELS - k);
    forall p: nat
      ensures Up(p, k) == i ==> Up(p, LEVELS) == c0
      ensures OtherHalf(i, k, p) ==> Up(p, LEVELS) == c0
    {
      UpAdd(p, k, LEVELS - k);
      UpAdd(i, LEVELS - 1 - k, 1);
      Halves(p, LEVELS - 1, Up(i, LEVELS - 1 - k));
      assert Up(Up(i, LEVELS - 1 - k), 1) == Up(i, LEVELS - 1 - k) / 2;
    }
    FirstUp(i, k);
    assert First(i, k) in PagesOf(i, k) && !ChunkInside(c0, done);
    assert ChunkInside(c0, done') <==> ChunkFull(ls, i, k);
    forall c: nat | ChunkInside(c, done') ensures HalfFree(ls', c) {
      if c == c0 {
        FilledHalf(ls, ls', i, k);
      } else {
        assert ChunkInside(c, done);
        SameHalf(ls, ls', c);
      }
    }
    forall p: nat ensures ChunkInside(Up(p, LEVELS), done) ==> ChunkInside(Up(p, LEVELS), done') {
    }
  }

  lemma FilledHalf(ls: Lists, ls': Lists, i: nat, k: nat)
    requires k < LEVELS && ChunkFull(ls, i, k)
    requires forall p: nat :: Covered(ls', p) <==> (Covered(ls, p) || Up(p, k) == i) && !OtherHalf(i, k, p)
    ensures HalfFree(ls', Up(i, LEVELS - k))
  {
    hide Covered;
    var h := Up(i, LEVELS - 1 - k);
    UpAdd(i, LEVELS - 1 - k, 1);
    assert Up(h, 1) == h / 2;
    forall p: nat | Up(p, LEVELS) == Up(i, LEVELS - k)
      ensures Covered(ls', p) <==> Up(p, LEVELS - 1) == h
    {
      Halves(p, LEVELS - 1, h);
    }
    assert OnlyHalf(ls', Up(i, LEVELS - k), h);
  }

  lemma SameHalf(ls: Lists, ls': Lists, c: nat)
    requires HalfFree(ls, c) && forall p: nat | Up(p, LEVELS) == c :: Covered(ls', p) <==> Covered(ls, p)
    ensures HalfFree(ls', c)
  {
    hide Covered;
    var h: nat :| h / 2 == c && OnlyHalf(ls, c, h);
    assert OnlyHalf(ls', c, h);
  }

  /** Everything handed in is free if and only if it fills no chunk. */
  lemma TracksAll(ls: Lists, all: iset<nat>)
    requires Tracks(ls, all)
    ensures (forall p: nat :: Covered(ls, p) <==> p in all) <==> NoFullChunk(all)
  {
    if forall p: nat :: Covered(ls, p) <==> p in all {
      forall c: nat
        ensures !ChunkInside(c, all)
      {
        NoFreeChunk(ls, c);
      }
    }
  }
}
