/** Byte addresses of blocks. */
module BuddyAddresses {
  import opened BuddyBlocks
  import Bits

  /** The size of a block of order 12 + k; level 8 is the chunk of 1 MiB that no list holds. */
  function Bytes(k: nat): (b: nat)
    ensures b > 0
  {
    if k == 0 then 0x1000 else if k == 1 then 0x2000 else if k == 2 then 0x4000 else if k == 3 then 0x8000
    else if k == 4 then 0x1_0000 else if k == 5 then 0x2_0000 else if k == 6 then 0x4_0000
    else if k == 7 then 0x8_0000 else 0x10_0000
  }

  const CHUNK := 0x10_0000

  /** `addr ^ size` and `addr & !size`, for a power of two. */
  function FlipBit(addr: nat, size: nat): nat
    requires size > 0
  {
    if addr / size % 2 == 0 then addr + size else addr - size
  }

  function ClearBit(addr: nat, size: nat): nat
    requires size > 0
  {
    if addr / size % 2 == 0 then addr else addr - size
  }

  lemma NextNumber(addr: nat, k: nat)
    requires k < LEVELS && addr % Bytes(k) == 0
    ensures (addr + Bytes(k)) % Bytes(k) == 0 && (addr + Bytes(k)) / Bytes(k) == addr / Bytes(k) + 1
  {
  }

  lemma FlipNumber(addr: nat, k: nat)
    requires k < LEVELS && addr % Bytes(k) == 0
    ensures FlipBit(addr, Bytes(k)) % Bytes(k) == 0 && FlipBit(addr, Bytes(k)) / Bytes(k) == Buddy(addr / Bytes(k))
  {
    NextNumber(addr, k);
    if addr / Bytes(k) % 2 == 1 {
      PrevNumber(addr, k);
      NextNumber(addr - Bytes(k), k);
    }
  }

  lemma PrevNumber(addr: nat, k: nat)
    requires k < LEVELS && addr % Bytes(k) == 0 && addr / Bytes(k) > 0
    ensures addr >= Bytes(k) && (addr - Bytes(k)) % Bytes(k) == 0
  {
    NumberAddress(addr / Bytes(k) - 1, k);
    assert addr == addr / Bytes(k) * Bytes(k);
    assert addr - Bytes(k) == (addr / Bytes(k) - 1) * Bytes(k);
  }

  lemma HalfNumber(addr: nat, k: nat)
    requires k < LEVELS && addr % Bytes(k + 1) == 0
    ensures addr % Bytes(k) == 0 && addr / Bytes(k) == 2 * (addr / Bytes(k + 1))
  {
  }

  lemma NumberAddress(i: nat, k: nat)
    requires k <= LEVELS
    ensures i * Bytes(k) % Bytes(k) == 0 && i * Bytes(k) / Bytes(k) == i
  {
  }

  lemma ClearNumber(addr: nat, k: nat)
    requires k + 1 < LEVELS && addr % Bytes(k) == 0
    ensures ClearBit(addr, Bytes(k)) % Bytes(k + 1) == 0
    ensures ClearBit(addr, Bytes(k)) / Bytes(k + 1) == addr / Bytes(k) / 2
  {
    var q := addr / Bytes(k);
    assert addr == q * Bytes(k) && Bytes(k + 1) == 2 * Bytes(k);
    assert ClearBit(addr, Bytes(k)) == q / 2 * Bytes(k + 1);
    NumberAddress(q / 2, k + 1);
  }

  lemma SameNumber(a: nat, b: nat, k: nat)
    requires k < LEVELS && a % Bytes(k) == 0 && b % Bytes(k) == 0 && a / Bytes(k) == b / Bytes(k)
    ensures a == b
  {
  }

  lemma EvenNumber(addr: nat, k: nat)
    requires k < LEVELS && addr % Bytes(k) == 0
    ensures addr % Bytes(k + 1) == 0 <==> addr / Bytes(k) % 2 == 0
  {
  }

  /** An aligned address is aligned for all smaller blocks. */
  lemma {:induction false} AlignedBelow(addr: nat, k: nat, j: nat)
    requires j <= k <= LEVELS && addr % Bytes(k) == 0
    ensures addr % Bytes(j) == 0
  {
    if j < k {
      HalfNumber(addr, k - 1);
      AlignedBelow(addr, k - 1, j);
    }
  }

  /** The block number of a page. */
  lemma {:induction false} UpBytes(p: nat, k: nat)
    requires k <= LEVELS
    ensures Up(p, k) == 0x1000 * p / Bytes(k)
  {
    if k > 0 {
      UpBytes(p, k - 1);
    }
  }

  lemma PageInBlock(p: nat, addr: nat, k: nat)
    requires k <= LEVELS && addr % Bytes(k) == 0
    ensures Up(p, k) == addr / Bytes(k) <==> addr <= 0x1000 * p < addr + Bytes(k)
  {
    UpBytes(p, k);
    DivBlock(0x1000 * p, addr, k);
  }

  lemma DivBlock(a: nat, addr: nat, k: nat)
    requires k <= LEVELS && addr % Bytes(k) == 0
    ensures a / Bytes(k) == addr / Bytes(k) <==> addr <= a < addr + Bytes(k)
  {
  }

  lemma PageSum(start: nat, size: nat, shift: nat)
    requires start % 0x1000 == 0 && size % 0x1000 == 0 && shift % 0x1000 == 0 && shift <= size
    ensures (start + shift) % 0x1000 == 0 && (size - shift) % 0x1000 == 0
  {
  }

  /** On 64-bit addresses these are the bit operations of the source. */
  lemma BitOperations(addr: nat, k: nat)
    requires k < LEVELS && addr < Bits.Pow(64)
    ensures FlipBit(addr, Bytes(k)) == Bits.Xor(addr, Bytes(k))
    ensures ClearBit(addr, Bytes(k)) == Bits.And(addr, Bits.Not(Bytes(k), 64))
  {
    hide Bits.Xor, Bits.And, Bits.Not, Bits.Cat, Bits.Drop;
    BytesPow(k);
    Bits.OneBit(addr, 12 + k, 52 - k);
    DivUnique(addr, k, Bits.Drop(addr, 12 + k), Bits.Cat(addr, 12 + k, 0));
  }

  lemma {:induction false} BytesPow(k: nat)
    requires k < LEVELS
    ensures Bytes(k) == Bits.Pow(12 + k)
  {
    if k == 0 {
      Bits.Powers();
    } else {
      BytesPow(k - 1);
    }
  }

  lemma DivUnique(a: nat, k: nat, q: nat, r: nat)
    requires k < LEVELS && a == r + Bytes(k) * q && r < Bytes(k)
    ensures a / Bytes(k) == q
  {
  }
}
