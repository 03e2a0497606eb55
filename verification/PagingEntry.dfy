/** The 64-bit word of a page-table entry, and what its operations mean for the fields that the page-table
    model keeps. */
module PagingEntry {
  import opened Bits
  import opened PageTables

  const MASK_51_12 := 0x000f_ffff_ffff_f000
  const ALL_FLAGS := 0x11ff
  const RW_FLAG := 2

  /** The masks of the source, as fields. */
  lemma Constants()
    ensures MASK_51_12 == Cat(0, 12, Ones(40)) && ALL_FLAGS == Cat(Ones(9), 12, 1)
    ensures Not(MASK_51_12, 64) == Cat(Ones(12), 12, Cat(0, 40, Ones(12)))
  {
    hide Cat, Not, Pow, Ones;
    Powers();
    OnesNumber(9);
    OnesNumber(40);
    CatIs(0, 12, Ones(40));
    CatIs(Ones(9), 12, 1);
    NotCat(0, 12, Ones(40), 52);
    CatFits(Ones(40), 40);
    NotCat(Ones(40), 40, 0, 12);
    NotEnds(12);
    NotEnds(40);
  }

  // ---- the fields --------------------------------------------------------

  predicate FlagBit(f: Flags, i: nat) {
    match i
    case 0 => f.present
    case 1 => f.rw
    case 2 => US in f.other
    case 3 => PWT in f.other
    case 4 => PCD in f.other
    case 5 => Accessed in f.other
    case 6 => Dirty in f.other
    case 7 => f.ps
    case 8 => Global in f.other
    case _ => false
  }

  /** Bits 0 to 11. */
  function FlagBits(f: Flags): (bs: seq<bool>)
    ensures |bs| == 12
  {
    seq(12, i requires 0 <= i => FlagBit(f, i))
  }

  function Encode(e: Entry): nat { Cat(FromBits(FlagBits(e.flags)), 12, e.page) }

  function EncodeFlags(w: FlagWord): nat { Cat(FromBits(FlagBits(w.low)), 12, if w.pat then 1 else 0) }

  /** Physical addresses have 52 bits. */
  predicate Fits(e: Entry) { e.page < Pow(40) }

  function Minus(f: Flags, g: Flags): Flags {
    Flags(f.present && !g.present, f.rw && !g.rw, f.ps && !g.ps, f.other - g.other)
  }

  lemma OrFlags(f: Flags, g: Flags)
    ensures Or(FromBits(FlagBits(f)), FromBits(FlagBits(g))) == FromBits(FlagBits(f.Or(g)))
  {
    hide Or, FromBits;
    OrFromBits(FlagBits(f), FlagBits(g));
    assert OrBits(FlagBits(f), FlagBits(g)) == FlagBits(f.Or(g));
  }

  function Meet(f: Flags, g: Flags): Flags {
    Flags(f.present && g.present, f.rw && g.rw, f.ps && g.ps, f.other * g.other)
  }

  lemma MeetFlags(f: Flags, g: Flags)
    ensures And(FromBits(FlagBits(f)), FromBits(FlagBits(g))) == FromBits(FlagBits(Meet(f, g)))
  {
    hide And, FromBits;
    AndFromBits(FlagBits(f), FlagBits(g));
    assert AndBits(FlagBits(f), FlagBits(g)) == FlagBits(Meet(f, g));
  }

  /** `entry & flags`: those of the flags that are set; PAT_FLAG reads bit 12 of the address. */
  lemma MaskMeans(e: Entry, w: FlagWord)
    ensures And(Encode(e), EncodeFlags(w)) == EncodeFlags(FlagWord(Meet(e.flags, w.low), w.pat && e.page % 2 == 1))
  {
    hide And, Cat, FromBits, FlagBits;
    AndCat(FromBits(FlagBits(e.flags)), FromBits(FlagBits(w.low)), 12, e.page, if w.pat then 1 else 0);
    MeetFlags(e.flags, w.low);
    LowBit(e.page);
    Zero(e.page);
  }

  /** `entry & ALL_FLAGS`: the flags, and bit 12 of the address. */
  lemma GetFlagsMeans(e: Entry)
    ensures And(Encode(e), ALL_FLAGS) == EncodeFlags(e.GetFlags())
  {
    hide And, Cat, Ones, FromBits, FlagBits, Pow;
    Constants();
    var low := FromBits(FlagBits(e.flags));
    AndCat(low, Ones(9), 12, e.page, 1);
    AndOnes(low, 9);
    NineBits(e.flags);
    LowBit(e.page);
    assert (if e.page % 2 == 1 then 1 else 0) == e.page % 2;
  }

  lemma LowBit(x: nat)
    ensures And(x, 1) == x % 2
  {
  }

  lemma NineBits(f: Flags)
    ensures Cat(FromBits(FlagBits(f)), 9, 0) == FromBits(FlagBits(f))
  {
    hide Cat, FromBits;
    var bs := FlagBits(f);
    FromBitsTail(bs[..9], 3);
    assert bs == bs[..9] + seq(3, _ => false);
    FromBitsFits(bs[..9], 9);
  }

  lemma {:induction false} FromBitsTail(bs: seq<bool>, n: nat)
    ensures FromBits(bs + seq(n, _ => false)) == FromBits(bs)
    decreases |bs| + n
  {
    var zs := seq(n, _ => false);
    if bs != [] {
      assert (bs + zs)[1..] == bs[1..] + zs;
      FromBitsTail(bs[1..], n);
    } else if n > 0 {
      assert (bs + zs)[1..] == [] + seq(n - 1, _ => false);
      FromBitsTail([], n - 1);
    }
  }

  /** `entry & MASK_51_12`: the page address. */
  lemma GetAddrMeans(e: Entry)
    requires Fits(e)
    ensures And(Encode(e), MASK_51_12) == 0x1000 * e.page
  {
    hide And, Cat, Ones, FromBits, FlagBits, Pow;
    Constants();
    Powers();
    var low := FromBits(FlagBits(e.flags));
    AndCat(low, 0, 12, e.page, Ones(40));
    Zero(low);
    AndOnes(e.page, 40);
    CatFits(e.page, 40);
    CatIs(0, 12, e.page);
  }

  /** Bits 12 to 51 of an address. */
  function PageField(addr: nat): nat { Cat(Drop(addr, 12), 40, 0) }

  lemma PageFieldMeans(addr: nat)
    ensures And(addr, MASK_51_12) == 0x1000 * PageField(addr) && PageField(addr) < Pow(40)
  {
    hide And, Cat, Drop, Ones, Pow;
    Constants();
    Powers();
    CatDrop(addr, 12);
    AndCat(addr, 0, 12, Drop(addr, 12), Ones(40));
    Zero(addr);
    AndOnes(Drop(addr, 12), 40);
    CatBound(Drop(addr, 12), 40);
    CatIs(0, 12, PageField(addr));
  }

  /** The page field of a page's address is its number. */
  lemma PageFieldOf(p: nat)
    requires p < Pow(40)
    ensures PageField(0x1000 * p) == p
  {
    hide Cat, Drop, Pow;
    Powers();
    CatIs(0, 12, p);
    DropCat(0, 12, p);
    CatFits(p, 40);
  }

  /** `set_addr`. */
  lemma SetAddrMeans(e: Entry, addr: nat)
    requires Fits(e)
    ensures Or(And(Encode(e), Not(MASK_51_12, 64)), And(addr, MASK_51_12)) == Encode(e.SetAddr(PageField(addr)))
  {
    hide And, Or, Cat, Ones, Not, FromBits, FlagBits, Pow, PageField;
    var p := PageField(addr);
    Constants();
    Powers();
    var low := FromBits(FlagBits(e.flags));
    AndCat(low, Ones(12), 12, e.page, Cat(0, 40, Ones(12)));
    AndOnes(low, 12);
    FromBitsFits(FlagBits(e.flags), 12);
    CatFits(e.page, 40);
    AndCat(e.page, 0, 40, 0, Ones(12));
    Zero(e.page);
    Zero(Ones(12));
    CatNumber(0, 40, 0);
    PageFieldMeans(addr);
    CatIs(0, 12, p);
    OrCat(low, 0, 12, 0, p);
    Zero(low);
    Zero(p);
  }

  lemma NoFlagBits()
    ensures FromBits(FlagBits(NO_FLAGS)) == 0
  {
    FromBitsTail([], 12);
    assert FlagBits(NO_FLAGS) == [] + seq(12, _ => false);
  }

  /** `set_flags(flags, true)`: bit 12 reaches into the address. */
  lemma SetFlagsMeans(e: Entry, w: FlagWord)
    ensures Or(Encode(e), EncodeFlags(w)) == Encode(e.SetFlags(w))
  {
    hide Or, Cat, FromBits, FlagBits;
    var pat := if w.pat then 1 else 0;
    OrCat(FromBits(FlagBits(e.flags)), FromBits(FlagBits(w.low)), 12, e.page, pat);
    OrFlags(e.flags, w.low);
    OrOne(e.page);
    Zero(e.page);
  }

  lemma OrOne(x: nat)
    ensures Or(x, 1) == SetLowBit(x)
  {
  }

  function NotBits(bs: seq<bool>): (r: seq<bool>)
    ensures |r| == |bs| && forall i: nat | i < |bs| :: r[i] == !bs[i]
  {
    if bs == [] then [] else [!bs[0]] + NotBits(bs[1..])
  }

  lemma {:induction false} NotFromBits(bs: seq<bool>)
    ensures Not(FromBits(bs), |bs|) == FromBits(NotBits(bs))
  {
    if bs != [] {
      NotFromBits(bs[1..]);
      assert NotBits(bs)[1..] == NotBits(bs[1..]);
    }
  }

  lemma ClearFlagBits(f: Flags, g: Flags)
    ensures And(FromBits(FlagBits(f)), Not(FromBits(FlagBits(g)), 12)) == FromBits(FlagBits(Minus(f, g)))
  {
    hide And, Not, FromBits;
    NotFromBits(FlagBits(g));
    AndFromBits(FlagBits(f), NotBits(FlagBits(g)));
    assert AndBits(FlagBits(f), NotBits(FlagBits(g))) == FlagBits(Minus(f, g));
  }

  /** The page number with its lowest bit cleared. */
  function ClearLowBit(page: nat): nat { page - page % 2 }

  function ClearFlags(e: Entry, w: FlagWord): Entry {
    Entry(Minus(e.flags, w.low), if w.pat then ClearLowBit(e.page) else e.page)
  }

  /** `set_flags(flags, false)`. */
  lemma ClearFlagsMeans(e: Entry, w: FlagWord)
    requires Fits(e)
    ensures And(Encode(e), Not(EncodeFlags(w), 64)) == Encode(ClearFlags(e, w))
  {
    hide And, Not, Cat, Ones, FromBits, FlagBits, Pow;
    var low, pat := FromBits(FlagBits(w.low)), if w.pat then 1 else 0;
    NotCat(low, 12, pat, 52);
    NotEnds(52);
    AndCat(FromBits(FlagBits(e.flags)), Not(low, 12), 12, e.page, Not(pat, 52));
    AndOnes(e.page, 52);
    Powers();
    PowAdd(40, 12);
    CatFits(e.page, 52);
    AndNotOne(e.page, 52);
    ClearFlagBits(e.flags, w.low);
  }

  /** A page-table entry: the word, and the fields it stands for. */
  class PagingStructEntry {
    var bytes: nat
    ghost var fields: Entry

    ghost predicate Valid()
      reads this
    {
      bytes == Encode(fields) && Fits(fields)
    }

    /** `PagingStructEntry::default()`. */
    constructor ()
      ensures Valid() && fields == ZERO_ENTRY
    {
      bytes := 0;
      fields := ZERO_ENTRY;
      new;
      NoFlagBits();
      CatNumber(0, 12, 0);
      Powers();
    }

    /** `get_flags`, for any word of flags. */
    method GetFlags(flag: nat, ghost w: FlagWord) returns (r: nat)
      requires Valid() && flag == EncodeFlags(w)
      ensures r == EncodeFlags(FlagWord(Meet(fields.flags, w.low), w.pat && fields.page % 2 == 1))
      ensures flag == ALL_FLAGS ==> r == EncodeFlags(fields.GetFlags())
    {
      r := And(bytes, flag);
      MaskMeans(fields, w);
      GetFlagsMeans(fields);
    }

    /** `get_addr`. */
    method GetAddr() returns (r: nat)
      requires Valid()
      ensures r == 0x1000 * fields.page
    {
      r := And(bytes, MASK_51_12);
      GetAddrMeans(fields);
    }

    /** `set_flags`, for any word of flags. */
    method SetFlags(flag: nat, value: bool, ghost w: FlagWord)
      requires Valid() && flag == EncodeFlags(w)
      modifies this
      ensures Valid() && fields == if value then old(fields).SetFlags(w) else ClearFlags(old(fields), w)
    {
      hide And, Or, Not, Pow, Encode, EncodeFlags;
      Powers();
      if value {
        SetFlagsMeans(fields, w);
        bytes := Or(bytes, flag);
        fields := fields.SetFlags(w);
      } else {
        ClearFlagsMeans(fields, w);
        bytes := And(bytes, Not(flag, 64));
        fields := ClearFlags(fields, w);
      }
    }

    /** `set_addr`: bits of the address outside the page field are ignored. */
    method SetAddr(addr: nat)
      requires Valid()
      modifies this
      ensures Valid() && fields == old(fields).SetAddr(PageField(addr))
    {
      hide And, Or, Not, Pow, Encode, PageField;
      SetAddrMeans(fields, addr);
      PageFieldMeans(addr);
      bytes := Or(And(bytes, Not(MASK_51_12, 64)), And(addr, MASK_51_12));
      fields := fields.SetAddr(PageField(addr));
    }
  }

  lemma {:induction false} OneBitNumber(bs: seq<bool>, i: nat)
    requires i < |bs| && forall j: nat | j < |bs| :: bs[j] <==> j == i
    ensures FromBits(bs) == Pow(i)
    decreases i
  {
    if i == 0 {
      FromBitsTail([true], |bs| - 1);
      assert bs == [true] + seq(|bs| - 1, _ => false) && [true][1..] == [];
    } else {
      OneBitNumber(bs[1..], i - 1);
    }
  }

  lemma OneFlag(f: Flags, i: nat)
    requires i < 12 && forall j: nat | j < 12 :: FlagBit(f, j) <==> j == i
    ensures EncodeFlags(FlagWord(f, false)) == Pow(i)
  {
    hide FromBits, FlagBit, Cat, Pow;
    var bs := FlagBits(f);
    OneBitNumber(bs, i);
    FromBitsFits(bs, 12);
  }

  /** The flags have the values of the source's constants. */
  lemma FlagWords()
    ensures EncodeFlags(FlagWord(NO_FLAGS.(present := true), false)) == 0x1
    ensures EncodeFlags(FlagWord(NO_FLAGS.(rw := true), false)) == 0x2
    ensures EncodeFlags(FlagWord(NO_FLAGS.(other := {US}), false)) == 0x4
    ensures EncodeFlags(FlagWord(NO_FLAGS.(other := {PWT}), false)) == 0x8
    ensures EncodeFlags(FlagWord(NO_FLAGS.(other := {PCD}), false)) == 0x10
    ensures EncodeFlags(FlagWord(NO_FLAGS.(other := {Accessed}), false)) == 0x20
    ensures EncodeFlags(FlagWord(NO_FLAGS.(other := {Dirty}), false)) == 0x40
    ensures EncodeFlags(FlagWord(NO_FLAGS.(ps := true), false)) == 0x80
    ensures EncodeFlags(FlagWord(NO_FLAGS.(other := {Global}), false)) == 0x100
    ensures EncodeFlags(FlagWord(NO_FLAGS, true)) == 0x1000
  {
    hide EncodeFlags;
    OneFlag(NO_FLAGS.(present := true), 0);
    OneFlag(NO_FLAGS.(rw := true), 1);
    OneFlag(NO_FLAGS.(other := {US}), 2);
    OneFlag(NO_FLAGS.(other := {PWT}), 3);
    OneFlag(NO_FLAGS.(other := {PCD}), 4);
    OneFlag(NO_FLAGS.(other := {Accessed}), 5);
    OneFlag(NO_FLAGS.(other := {Dirty}), 6);
    OneFlag(NO_FLAGS.(ps := true), 7);
    OneFlag(NO_FLAGS.(other := {Global}), 8);
    PatFlag();
    SmallPowers();
  }

  lemma PatFlag()
    ensures EncodeFlags(FlagWord(NO_FLAGS, true)) == 0x1000
  {
    hide FromBits, FlagBits, Cat;
    NoFlagBits();
    Powers();
    CatIs(0, 12, 1);
  }

  lemma SmallPowers()
    ensures Pow(0) == 1 && Pow(1) == 2 && Pow(2) == 4 && Pow(3) == 8 && Pow(4) == 0x10 && Pow(5) == 0x20
    ensures Pow(6) == 0x40 && Pow(7) == 0x80 && Pow(8) == 0x100
  {
  }

  /** What `map` stores: `PRESENT_FLAG | RW_FLAG` is 3. */
  lemma PresentRw()
    ensures EncodeFlags(FlagWord(PRESENT_RW, false)) == 0x3
  {
    hide Or, FromBits, FlagBits, Cat, EncodeFlags;
    FlagWords();
    var p, w := NO_FLAGS.(present := true), NO_FLAGS.(rw := true);
    OrFlagWords(p, w);
    assert p.Or(w) == PRESENT_RW;
    OneOrTwo();
  }

  lemma OneOrTwo()
    ensures Or(1, 2) == 3
  {
  }

  lemma OrFlagWords(f: Flags, g: Flags)
    ensures Or(EncodeFlags(FlagWord(f, false)), EncodeFlags(FlagWord(g, false))) ==
            EncodeFlags(FlagWord(f.Or(g), false))
  {
    hide Or, FromBits, FlagBits, Cat;
    OrFlags(f, g);
    OrCat(FromBits(FlagBits(f)), FromBits(FlagBits(g)), 12, 0, 0);
    Zero(0);
  }

  const RW_ONLY := NO_FLAGS.(rw := true)

  lemma RwBits()
    ensures FromBits(FlagBits(RW_ONLY)) == 2
  {
    assert FlagBits(RW_ONLY) == [false, true] + seq(10, _ => false);
    FromBitsTail([false, true], 10);
    assert [false, true][1..] == [true] && [true][1..] == [];
  }

  /** `set_flags(RW_FLAG, b)` is the write permission and nothing else. */
  lemma RwFlag(f: Flags)
    ensures RW_FLAG == EncodeFlags(FlagWord(RW_ONLY, false))
    ensures f.Or(RW_ONLY) == f.(rw := true) && Minus(f, RW_ONLY) == f.(rw := false)
  {
    hide Pow, Cat, FromBits, FlagBits;
    RwBits();
    Powers();
    CatIs(2, 12, 0);
    assert f.other + {} == f.other && f.other - {} == f.other;
  }

  /** `set_flags(RW_FLAG, b)` on an entry. */
  lemma SetRwMeans(e: Entry, b: bool)
    ensures e.SetRw(b) == if b then e.SetFlags(FlagWord(RW_ONLY, false)) else ClearFlags(e, FlagWord(RW_ONLY, false))
  {
    RwFlag(e.flags);
  }
}
