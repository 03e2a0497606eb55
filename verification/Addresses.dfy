/** Canonical virtual addresses as 64-bit words, and the physical address they translate to. */
module Addresses {
  import opened Basics
  import opened Bits
  import opened PageTables

  const MASK_47_39 := 0x0000_ff80_0000_0000
  const MASK_38_30 := 0x0000_007f_c000_0000
  const MASK_29_21 := 0x0000_0000_3fe0_0000
  const MASK_20_12 := 0x0000_0000_001f_f000

  /** The index mask of a table level. */
  function LevelMask(depth: nat): nat {
    if depth == 0 then MASK_47_39 else if depth == 1 then MASK_38_30 else if depth == 2 then MASK_29_21 else MASK_20_12
  }

  function LevelShift(depth: nat): nat {
    if depth == 0 then 39 else if depth == 1 then 30 else if depth == 2 then 21 else 12
  }

  /** `PagingLevel::entry_idx`. */
  function EntryIdx(w: nat, depth: nat): nat { Drop(And(w, LevelMask(depth)), LevelShift(depth)) }

  /** `n` bits of `w`, from bit `k` on. */
  function Field(w: nat, k: nat, n: nat): nat { Cat(Drop(w, k), n, 0) }

  lemma MaskFields()
    ensures forall depth: nat | depth <= 3 :: LevelMask(depth) == Cat(0, LevelShift(depth), Ones(9))
  {
    hide Cat, Pow, Ones;
    Powers();
    OnesNumber(9);
    PowAdd(9, 9);
    PowAdd(12, 9);
    PowAdd(12, 18);
    PowAdd(30, 9);
    CatIs(0, 12, Ones(9));
    CatIs(0, 21, Ones(9));
    CatIs(0, 30, Ones(9));
    CatIs(0, 39, Ones(9));
  }

  /** Masking and shifting extracts the nine bits. */
  lemma EntryIdxField(w: nat, depth: nat)
    requires depth <= 3
    ensures EntryIdx(w, depth) == Field(w, LevelShift(depth), 9) < 512
  {
    hide Cat, Pow, Ones, And, Drop;
    var s := LevelShift(depth);
    MaskFields();
    CatDrop(w, s);
    AndCat(w, 0, s, Drop(w, s), Ones(9));
    Zero(w);
    AndOnes(Drop(w, s), 9);
    DropCat(0, s, Cat(Drop(w, s), 9, 0));
    CatBound(Drop(w, s), 9);
    Powers();
  }

  // ---- addresses and indices ---------------------------------------------

  /** Bits 63 to 48 repeat bit 47. */
  function Extension(i4: nat): nat { if i4 < USER_SLOTS then 0 else Ones(16) }

  function Word(v: Virt): nat {
    Cat(v.off, 12, Cat(v.i1, 9, Cat(v.i2, 9, Cat(v.i3, 9, Cat(v.i4, 9, Extension(v.i4))))))
  }

  predicate Canonical(w: nat) { Drop(w, 47) == 0 || Drop(w, 47) == Ones(17) }

  /** The indices and the offset, by the masks and shifts of the source. */
  function Parse(w: nat): (v: Virt)
    ensures v.i4 == Field(w, 39, 9) && v.i3 == Field(w, 30, 9) && v.i2 == Field(w, 21, 9) && v.i1 == Field(w, 12, 9)
    ensures v.off == Cat(w, 12, 0)
  {
    EntryIdxField(w, 0);
    EntryIdxField(w, 1);
    EntryIdxField(w, 2);
    EntryIdxField(w, 3);
    AndOnes(w, 12);
    CatBound(w, 12);
    Powers();
    OnesNumber(12);
    Virt(EntryIdx(w, 0), EntryIdx(w, 1), EntryIdx(w, 2), EntryIdx(w, 3), And(w, 0xfff))
  }

  /** What is left of an address above each index. */
  lemma WordDrops(v: Virt)
    ensures Drop(Word(v), 12) == Cat(v.i1, 9, Cat(v.i2, 9, Cat(v.i3, 9, Cat(v.i4, 9, Extension(v.i4)))))
    ensures Drop(Word(v), 21) == Cat(v.i2, 9, Cat(v.i3, 9, Cat(v.i4, 9, Extension(v.i4))))
    ensures Drop(Word(v), 30) == Cat(v.i3, 9, Cat(v.i4, 9, Extension(v.i4)))
    ensures Drop(Word(v), 39) == Cat(v.i4, 9, Extension(v.i4))
    ensures Drop(Word(v), 48) == Extension(v.i4)
  {
    hide Cat, Drop;
    var w, x := Word(v), Extension(v.i4);
    DropCat(v.off, 12, Cat(v.i1, 9, Cat(v.i2, 9, Cat(v.i3, 9, Cat(v.i4, 9, x)))));
    DropCat(v.i1, 9, Cat(v.i2, 9, Cat(v.i3, 9, Cat(v.i4, 9, x))));
    DropCat(v.i2, 9, Cat(v.i3, 9, Cat(v.i4, 9, x)));
    DropCat(v.i3, 9, Cat(v.i4, 9, x));
    DropCat(v.i4, 9, x);
    DropAdd(w, 12, 9);
    DropAdd(w, 21, 9);
    DropAdd(w, 30, 9);
    DropAdd(w, 39, 9);
  }

  lemma NineBitField(i: Index, hi: nat)
    ensures Cat(Cat(i, 9, hi), 9, 0) == i
  {
    hide Cat, Pow;
    CatLow(i, 9, hi, 0);
    Powers();
    CatFits(i, 9);
  }

  /** Bit 8 of a nine-bit field tells the half. */
  lemma TopBit(x: nat)
    ensures Cat(x, 9, 0) >= 256 <==> Drop(x, 8) % 2 == 1
  {
    hide Cat, Drop, Pow;
    CatDrop(x, 8);
    CatCat(x, 8, Drop(x, 8), 1, 0);
    LastBit(Drop(x, 8));
    CatNumber(x, 8, Drop(x, 8) % 2);
    CatBound(x, 8);
    assert Pow(8) == 256 by {
      EighthPower();
    }
  }

  lemma EighthPower()
    ensures Pow(8) == 256
  {
  }

  lemma LastBit(x: nat)
    ensures Cat(x, 1, 0) == x % 2
  {
  }

  lemma OnesStep(n: nat)
    requires n > 0
    ensures Drop(Ones(n), 1) == Ones(n - 1) && Ones(n) % 2 == 1
  {
  }

  /** Every four indices and offset are those of exactly one canonical address. */
  lemma ParseWord(v: Virt)
    ensures Parse(Word(v)) == v && Canonical(Word(v))
  {
    hide Cat, Drop, Ones, Pow;
    var w, x := Word(v), Extension(v.i4);
    WordDrops(v);
    CatLow(v.off, 12, Drop(w, 12), 0);
    Powers();
    CatFits(v.off, 12);
    NineBitField(v.i1, Drop(w, 21));
    NineBitField(v.i2, Drop(w, 30));
    NineBitField(v.i3, Drop(w, 39));
    NineBitField(v.i4, x);
    TopBit(Drop(w, 39));
    DropAdd(w, 39, 8);
    DropAdd(w, 47, 1);
    TopOf(Drop(w, 47), v.i4 >= 256);
  }

  lemma TopOf(x: nat, odd: bool)
    requires Drop(x, 1) == (if odd then Ones(16) else 0) && (x % 2 == 1 <==> odd)
    ensures x == if odd then Ones(17) else 0
  {
  }

  lemma WordParse(w: nat)
    requires Canonical(w)
    ensures Word(Parse(w)) == w
  {
    hide Cat, Drop, Ones, Pow;
    var v := Parse(w);
    CatLow(w, 12, 0, Drop(w, 12));
    CatDrop(w, 12);
    FieldDrop(w, 12);
    FieldDrop(w, 21);
    FieldDrop(w, 30);
    FieldDrop(w, 39);
    TopBit(Drop(w, 39));
    DropAdd(w, 39, 8);
    DropAdd(w, 47, 1);
    OnesStep(17);
    assert Drop(0, 1) == 0 by {
      DropCat(0, 1, 0);
      CatNumber(0, 1, 0);
    }
  }

  lemma FieldDrop(w: nat, k: nat)
    ensures Cat(Field(w, k, 9), 9, Drop(w, k + 9)) == Drop(w, k)
  {
    hide Cat, Drop;
    CatLow(Drop(w, k), 9, 0, Drop(w, k + 9));
    DropAdd(w, k, 9);
    CatDrop(Drop(w, k), 9);
  }

  /** The test `virt_addr >> 51 == 0` tells the user half. */
  lemma UserTest(v: Virt)
    ensures Drop(Word(v), 51) == 0 <==> v.User()
  {
    hide Cat, Ones, Pow;
    WordDrops(v);
    DropAdd(Word(v), 48, 3);
    OnesStep(16);
    OnesStep(15);
    OnesStep(14);
    OnesStep(13);
    DropAdd(Ones(16), 1, 1);
    DropAdd(Ones(16), 2, 1);
    assert Drop(0, 3) == 0;
  }

  // ---- phys_addr ---------------------------------------------------------

  /** The number of offset bits of a leaf at the given depth: 1 GiB, 2 MiB or 4 KiB pages. */
  function PageShift(depth: nat): nat { if depth == 1 then 30 else if depth == 2 then 21 else 12 }

  /** `phys_addr`: the leaf's address field, ORed with the offset. */
  function PhysAddr(a: Arena, root: nat, v: Virt): Option<nat>
    requires root < |a.tables|
  {
    match Walk(a, root, 0, v)
    case Leaf(_, _, e, depth) => Some(Or(0x1000 * e.page, And(Word(v), Ones(PageShift(depth)))))
    case _ => None
  }

  /** The 4-level translation of the architecture: nine index bits per level; at a leaf, the offset bits of
      the address below the remaining bits of the address field. */
  function Architectural(a: Arena, t: nat, depth: nat, w: nat): Option<nat>
    requires t < |a.tables| && depth <= 3
    decreases 3 - depth
  {
    EntryIdxField(w, depth);
    var e := a.At(t, Field(w, LevelShift(depth), 9));
    if !e.flags.present then None
    else if depth == 3 || (depth > 0 && e.flags.ps) then
      Some(Cat(w, PageShift(depth), Drop(0x1000 * e.page, PageShift(depth))))
    else if a.Holds(e.page) then Architectural(a, a.TableOf(e.page), depth + 1, w)
    else None
  }

  /** The address has all the bits that the leaf's address field has below the page size. */
  predicate OffsetCovers(e: Entry, depth: nat, w: nat) {
    var stray := Cat(0x1000 * e.page, PageShift(depth), 0);
    And(stray, Cat(w, PageShift(depth), 0)) == stray
  }

  lemma LeafAddress(e: Entry, depth: nat, w: nat)
    ensures
      var s := PageShift(depth);
      Or(0x1000 * e.page, And(w, Ones(s))) == Cat(w, s, Drop(0x1000 * e.page, s)) <==> OffsetCovers(e, depth, w)
  {
    hide Cat, Drop, Ones, Or, And;
    var s, b := PageShift(depth), 0x1000 * e.page;
    AndOnes(w, s);
    CatDrop(b, s);
    OrCat(b, w, s, Drop(b, s), 0);
    Zero(Drop(b, s));
    OrCat(b, w, s, 0, 0);
    Zero(0);
    OrSame(Cat(b, s, 0), Cat(w, s, 0));
    if Cat(Or(b, w), s, Drop(b, s)) == Cat(w, s, Drop(b, s)) {
      CatInjective(Or(b, w), Drop(b, s), w, Drop(b, s), s);
    }
    if OffsetCovers(e, depth, w) {
      CatLow(Or(b, w), s, 0, Drop(b, s));
      CatLow(w, s, 0, Drop(b, s));
    }
  }

  lemma {:induction false} ArchitecturalWalk(a: Arena, t: nat, depth: nat, v: Virt)
    requires t < |a.tables| && depth <= 3
    ensures
      match Walk(a, t, depth, v)
      case Leaf(_, _, e, d) =>
        Architectural(a, t, depth, Word(v)) == Some(Cat(Word(v), PageShift(d), Drop(0x1000 * e.page, PageShift(d))))
      case _ => Architectural(a, t, depth, Word(v)) == None
    decreases 3 - depth
  {
    hide Cat, Drop, Word;
    ParseWord(v);
    EntryIdxField(Word(v), depth);
    var e := a.At(t, v.Slot(depth));
    if e.flags.present && !(depth == 3 || (depth > 0 && e.flags.ps)) && a.Holds(e.page) {
      ArchitecturalWalk(a, a.TableOf(e.page), depth + 1, v);
    }
  }

  /** `phys_addr` is the architectural translation if and only if the address covers the stray bits of the
      leaf; it is never wrong about whether there is a translation. */
  lemma PhysAddrExact(a: Arena, root: nat, v: Virt)
    requires root < |a.tables|
    ensures PhysAddr(a, root, v).Some? <==> Architectural(a, root, 0, Word(v)).Some?
    ensures PhysAddr(a, root, v) == Architectural(a, root, 0, Word(v)) <==>
            (var w := Walk(a, root, 0, v); w.Leaf? ==> OffsetCovers(w.entry, w.depth, Word(v)))
  {
    hide Cat, Drop, Word, Or, And, Ones, Architectural, OffsetCovers;
    ArchitecturalWalk(a, root, 0, v);
    match Walk(a, root, 0, v)
    case Leaf(_, _, e, depth) => LeafAddress(e, depth, Word(v));
    case _ =>
  }

  /** All addresses of a page are translated right if and only if its base is a multiple of the page size. */
  lemma AlignedBase(e: Entry, depth: nat)
    ensures (forall w: nat :: OffsetCovers(e, depth, w)) <==> Cat(0x1000 * e.page, PageShift(depth), 0) == 0
  {
    hide Cat, And;
    var s := PageShift(depth);
    var stray := Cat(0x1000 * e.page, s, 0);
    CatNumber(0, s, 0);
    Zero(stray);
    assert OffsetCovers(e, depth, 0) <==> stray == 0;
    forall w: nat ensures stray == 0 ==> OffsetCovers(e, depth, w) {
      Zero(Cat(w, s, 0));
    }
  }

  /** Every 4 KiB leaf has such a base. */
  lemma SmallLeaf(e: Entry)
    ensures Cat(0x1000 * e.page, PageShift(3), 0) == 0
  {
    hide Cat, Pow;
    Powers();
    CatIs(0, 12, e.page);
    CatLow(0, 12, e.page, 0);
    CatNumber(0, 12, 0);
  }

  /** So `phys_addr` is right about every address that a 4 KiB leaf maps. */
  lemma SmallPagesRight(a: Arena, root: nat, v: Virt)
    requires root < |a.tables| && Walk(a, root, 0, v).Leaf? && Walk(a, root, 0, v).depth == 3
    ensures PhysAddr(a, root, v) == Architectural(a, root, 0, Word(v))
  {
    hide Cat, Drop, Word, Or, And, Ones, Architectural, PhysAddr;
    var e := Walk(a, root, 0, v).entry;
    PhysAddrExact(a, root, v);
    AlignedBase(e, 3);
    SmallLeaf(e);
    assert OffsetCovers(e, 3, Word(v));
  }

  /** A 2 MiB page at address 0, with frame 0 and the PAT bit (bit 12) set. */
  function PatArena(): Arena {
    Arena(0, [OneEntry(0, 1), OneEntry(0, 2), ZeroTable()[0 := Entry(Flags(true, true, true, {}), 1)]])
  }

  /** `phys_addr` of address 0 is 0x1000 there; the architecture translates it to 0. */
  lemma PatMoves()
    ensures
      var v := Virt(0, 0, 0, 0, 0);
      PhysAddr(PatArena(), 0, v) == Some(0x1000) && Architectural(PatArena(), 0, 0, Word(v)) == Some(0)
  {
    hide Cat, Drop, And, Or, Ones;
    var v := Virt(0, 0, 0, 0, 0);
    var a, e := PatArena(), Entry(Flags(true, true, true, {}), 1);
    WordZero(v);
    assert a.At(0, 0).page == 1 && a.At(1, 0).page == 2 && a.At(2, 0) == e;
    assert Walk(a, 2, 2, v) == Leaf(2, 0, e, 2) && Walk(a, 1, 1, v) == Walk(a, 2, 2, v);
    ArchitecturalWalk(a, 0, 0, v);
    Zero(Ones(21));
    Zero(0x1000);
    PatBits();
  }

  lemma WordZero(v: Virt)
    requires v == Virt(0, 0, 0, 0, 0)
    ensures Word(v) == 0
  {
    hide Cat;
    Powers();
    OnesNumber(16);
    CatIs(0, 9, 0);
    CatIs(0, 12, 0);
  }

  lemma PatBits()
    ensures Cat(0, 21, Drop(0x1000, 21)) == 0
  {
    hide Cat, Drop;
    Powers();
    PowAdd(9, 12);
    DropFits(0x1000, 21, 0);
    CatNumber(0, 21, 0);
  }
}
