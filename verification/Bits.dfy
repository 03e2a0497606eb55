/** Bitwise operations on numbers, as far as page-table entries and addresses need them. */
module Bits {

  function And(x: nat, y: nat): nat {
    if x == 0 || y == 0 then 0 else 2 * And(x / 2, y / 2) + (if x % 2 == 1 && y % 2 == 1 then 1 else 0)
  }

  function Or(x: nat, y: nat): nat {
    if x == 0 then y else if y == 0 then x
    else 2 * Or(x / 2, y / 2) + (if x % 2 == 1 || y % 2 == 1 then 1 else 0)
  }

  function Xor(x: nat, y: nat): nat {
    if x == 0 then y else if y == 0 then x
    else 2 * Xor(x / 2, y / 2) + (if x % 2 != y % 2 then 1 else 0)
  }

  /** `!x`, on `n` bits. */
  function Not(x: nat, n: nat): nat { if n == 0 then 0 else 1 - x % 2 + 2 * Not(x / 2, n - 1) }

  /** `x >> k`. */
  function Drop(x: nat, k: nat): nat { if k == 0 then x else Drop(x / 2, k - 1) }

  /** The low `k` bits of `lo`, below those of `hi`. */
  function Cat(lo: nat, k: nat, hi: nat): nat { if k == 0 then hi else lo % 2 + 2 * Cat(lo / 2, k - 1, hi) }

  /** `(1 << n) - 1`. */
  function Ones(n: nat): nat { if n == 0 then 0 else 1 + 2 * Ones(n - 1) }

  function Pow(k: nat): nat { if k == 0 then 1 else 2 * Pow(k - 1) }

  lemma {:induction false} PowAdd(j: nat, k: nat)
    ensures Pow(j + k) == Pow(j) * Pow(k)
  {
    if j > 0 {
      PowAdd(j - 1, k);
    }
  }

  /** The powers that entries and addresses use. */
  lemma Powers()
    ensures Pow(9) == 0x200 && Pow(12) == 0x1000 && Pow(40) == 0x100_0000_0000
  {
    assert Pow(10) == 0x400;
    PowAdd(10, 10);
    PowAdd(20, 20);
  }

  lemma {:induction false} CatNumber(lo: nat, k: nat, hi: nat)
    ensures Cat(lo, k, hi) == Cat(lo, k, 0) + Pow(k) * hi
    ensures Cat(0, k, 0) == 0
  {
    if k > 0 {
      CatNumber(lo / 2, k - 1, hi);
      CatNumber(0, k - 1, hi);
    }
  }

  lemma {:induction false} CatFits(x: nat, k: nat)
    requires x < Pow(k)
    ensures Cat(x, k, 0) == x
  {
    if k > 0 {
      CatFits(x / 2, k - 1);
    }
  }

  lemma {:induction false} OnesNumber(n: nat)
    ensures Ones(n) == Pow(n) - 1
  {
    if n > 0 {
      OnesNumber(n - 1);
    }
  }

  /** A number written as its low field and the rest. */
  lemma CatIs(lo: nat, k: nat, hi: nat)
    requires lo < Pow(k)
    ensures Cat(lo, k, hi) == lo + Pow(k) * hi
  {
  }

  lemma Zero(x: nat)
    ensures And(x, 0) == 0 == And(0, x) && Or(x, 0) == x == Or(0, x)
  {
  }

  /** The low bit of a number and the rest. */
  lemma Split(b: nat, y: nat)
    requires b < 2
    ensures (b + 2 * y) / 2 == y && (b + 2 * y) % 2 == b
  {
  }

  lemma AndHalves(x: nat, y: nat)
    ensures And(x, y) % 2 == (if x % 2 == 1 && y % 2 == 1 then 1 else 0) && And(x, y) / 2 == And(x / 2, y / 2)
  {
  }

  lemma OrHalves(x: nat, y: nat)
    ensures Or(x, y) % 2 == (if x % 2 == 1 || y % 2 == 1 then 1 else 0) && Or(x, y) / 2 == Or(x / 2, y / 2)
  {
  }

  /** A number is determined by its low bit and its half. */
  lemma SameHalves(x: nat, y: nat)
    requires x % 2 == y % 2 && x / 2 == y / 2
    ensures x == y
  {
  }

  lemma CatHalves(x: nat, k: nat, u: nat)
    requires k > 0
    ensures Cat(x, k, u) % 2 == x % 2 && Cat(x, k, u) / 2 == Cat(x / 2, k - 1, u)
  {
  }

  lemma {:induction false} AndCat(x: nat, y: nat, k: nat, u: nat, v: nat)
    ensures And(Cat(x, k, u), Cat(y, k, v)) == Cat(And(x, y), k, And(u, v))
  {
    if k > 0 {
      hide And, Cat;
      AndCat(x / 2, y / 2, k - 1, u, v);
      CatHalves(x, k, u);
      CatHalves(y, k, v);
      CatHalves(And(x, y), k, And(u, v));
      AndHalves(x, y);
      AndHalves(Cat(x, k, u), Cat(y, k, v));
      SameHalves(And(Cat(x, k, u), Cat(y, k, v)), Cat(And(x, y), k, And(u, v)));
    }
  }

  lemma {:induction false} OrCat(x: nat, y: nat, k: nat, u: nat, v: nat)
    ensures Or(Cat(x, k, u), Cat(y, k, v)) == Cat(Or(x, y), k, Or(u, v))
  {
    if k > 0 {
      hide Or, Cat;
      OrCat(x / 2, y / 2, k - 1, u, v);
      CatHalves(x, k, u);
      CatHalves(y, k, v);
      CatHalves(Or(x, y), k, Or(u, v));
      OrHalves(x, y);
      OrHalves(Cat(x, k, u), Cat(y, k, v));
      SameHalves(Or(Cat(x, k, u), Cat(y, k, v)), Cat(Or(x, y), k, Or(u, v)));
    }
  }

  lemma XorHalves(x: nat, y: nat)
    ensures Xor(x, y) % 2 == (if x % 2 != y % 2 then 1 else 0) && Xor(x, y) / 2 == Xor(x / 2, y / 2)
  {
    if x != 0 && y != 0 {
      Split(if x % 2 != y % 2 then 1 else 0, Xor(x / 2, y / 2));
    }
  }

  lemma {:induction false} XorCat(x: nat, y: nat, k: nat, u: nat, v: nat)
    ensures Xor(Cat(x, k, u), Cat(y, k, v)) == Cat(Xor(x, y), k, Xor(u, v))
  {
    if k > 0 {
      hide Xor, Cat;
      XorCat(x / 2, y / 2, k - 1, u, v);
      CatHalves(x, k, u);
      CatHalves(y, k, v);
      CatHalves(Xor(x, y), k, Xor(u, v));
      XorHalves(x, y);
      XorHalves(Cat(x, k, u), Cat(y, k, v));
      SameHalves(Xor(Cat(x, k, u), Cat(y, k, v)), Cat(Xor(x, y), k, Xor(u, v)));
    }
  }

  lemma {:induction false} NotCat(lo: nat, k: nat, hi: nat, n: nat)
    ensures Not(Cat(lo, k, hi), k + n) == Cat(Not(lo, k), k, Not(hi, n))
  {
    if k > 0 {
      NotCat(lo / 2, k - 1, hi, n);
      CatHalves(lo, k, hi);
      Split(1 - lo % 2, Not(lo / 2, k - 1));
    }
  }

  lemma {:induction false} NotEnds(n: nat)
    ensures Not(0, n) == Ones(n) && Not(Ones(n), n) == 0
  {
    if n > 0 {
      NotEnds(n - 1);
      var o := Ones(n - 1);
      assert Ones(n) == 1 + 2 * o && (1 + 2 * o) / 2 == o && (1 + 2 * o) % 2 == 1;
      assert Not(1 + 2 * o, n) == 2 * Not(o, n - 1);
    }
  }

  /** Flipping or clearing bit `n` of a word. */
  lemma OneBit(x: nat, n: nat, m: nat)
    requires x < Pow(n + m) && m > 0
    ensures
      var d := Drop(x, n);
      && x == Cat(x, n, 0) + Pow(n) * d && Cat(x, n, 0) < Pow(n)
      && Xor(x, Pow(n)) == (if d % 2 == 0 then x + Pow(n) else x - Pow(n))
      && And(x, Not(Pow(n), n + m)) == (if d % 2 == 0 then x else x - Pow(n))
  {
    hide Xor, And, Not, Cat, Pow, Drop, Ones;
    var d := Drop(x, n);
    CatDrop(x, n);
    CatNumber(x, n, d);
    CatBound(x, n);
    CatNumber(0, n, 1);
    XorCat(x, 0, n, d, 1);
    XorZero(x);
    XorOne(d);
    CatNumber(x, n, Xor(d, 1));
    NotCat(0, n, 1, m);
    NotEnds(n);
    AndCat(x, Ones(n), n, d, Not(1, m));
    AndOnes(x, n);
    DropFits(x, n, m);
    AndNotOne(d, m);
    CatLow(x, n, 0, d - d % 2);
    CatNumber(x, n, d - d % 2);
    assert Pow(n) * (d + 1) == Pow(n) * d + Pow(n);
    assert d > 0 ==> Pow(n) * (d - 1) == Pow(n) * d - Pow(n);
  }

  lemma XorZero(x: nat)
    ensures Xor(x, 0) == x
  {
  }

  lemma XorOne(d: nat)
    ensures Xor(d, 1) == if d % 2 == 0 then d + 1 else d - 1
  {
  }

  lemma {:induction false} DropFits(x: nat, n: nat, m: nat)
    requires x < Pow(n + m)
    ensures Drop(x, n) < Pow(m)
  {
    if n > 0 {
      DropFits(x / 2, n - 1, m);
    }
  }

  lemma AndNotOne(d: nat, m: nat)
    requires m > 0 && d < Pow(m)
    ensures And(d, Not(1, m)) == d - d % 2
  {
    NotEnds(m - 1);
    assert Not(1, m) == 2 * Ones(m - 1);
    AndOnes(d / 2, m - 1);
    CatFits(d / 2, m - 1);
    AndHalves(d, Not(1, m));
  }

  lemma {:induction false} CatBound(x: nat, n: nat)
    ensures Cat(x, n, 0) < Pow(n)
  {
    if n > 0 {
      CatBound(x / 2, n - 1);
    }
  }

  lemma {:induction false} AndOnes(x: nat, n: nat)
    ensures And(x, Ones(n)) == Cat(x, n, 0)
  {
    if n > 0 {
      AndOnes(x / 2, n - 1);
    }
  }

  lemma {:induction false} DropCat(lo: nat, k: nat, hi: nat)
    ensures Drop(Cat(lo, k, hi), k) == hi
  {
    if k > 0 {
      DropCat(lo / 2, k - 1, hi);
    }
  }

  lemma {:induction false} CatDrop(x: nat, k: nat)
    ensures Cat(x, k, Drop(x, k)) == x
  {
    if k > 0 {
      CatDrop(x / 2, k - 1);
    }
  }

  /** Only the low bits of `lo` matter. */
  lemma {:induction false} CatLow(lo: nat, k: nat, mid: nat, hi: nat)
    ensures Cat(Cat(lo, k, mid), k, hi) == Cat(lo, k, hi)
  {
    if k > 0 {
      CatLow(lo / 2, k - 1, mid, hi);
    }
  }

  lemma {:induction false} CatCat(lo: nat, j: nat, mid: nat, k: nat, hi: nat)
    ensures Cat(lo, j, Cat(mid, k, hi)) == Cat(Cat(lo, j, mid), j + k, hi)
    decreases j + k
  {
    if j > 0 {
      CatCat(lo / 2, j - 1, mid, k, hi);
    }
  }

  lemma {:induction false} DropAdd(x: nat, j: nat, k: nat)
    ensures Drop(Drop(x, j), k) == Drop(x, j + k)
  {
    if j > 0 {
      DropAdd(x / 2, j - 1, k);
    }
  }

  /** Equal parts make equal numbers. */
  lemma CatInjective(x: nat, u: nat, y: nat, v: nat, k: nat)
    requires Cat(x, k, u) == Cat(y, k, v)
    ensures u == v && Cat(x, k, 0) == Cat(y, k, 0)
  {
  }

  /** ORing `x` into `y` changes nothing if and only if `y` has all bits of `x`. */
  lemma {:induction false} OrSame(x: nat, y: nat)
    ensures Or(x, y) == y <==> And(x, y) == x
  {
    if x != 0 && y != 0 {
      OrSame(x / 2, y / 2);
    }
  }

  // ---- fields of single bits ---------------------------------------------

  function FromBits(bs: seq<bool>): nat {
    if bs == [] then 0 else (if bs[0] then 1 else 0) + 2 * FromBits(bs[1..])
  }

  function OrBits(xs: seq<bool>, ys: seq<bool>): (zs: seq<bool>)
    requires |xs| == |ys|
    ensures |zs| == |xs| && forall i: nat | i < |xs| :: zs[i] == (xs[i] || ys[i])
  {
    if xs == [] then [] else [xs[0] || ys[0]] + OrBits(xs[1..], ys[1..])
  }

  function AndBits(xs: seq<bool>, ys: seq<bool>): (zs: seq<bool>)
    requires |xs| == |ys|
    ensures |zs| == |xs| && forall i: nat | i < |xs| :: zs[i] == (xs[i] && ys[i])
  {
    if xs == [] then [] else [xs[0] && ys[0]] + AndBits(xs[1..], ys[1..])
  }

  lemma {:induction false} OrFromBits(xs: seq<bool>, ys: seq<bool>)
    requires |xs| == |ys|
    ensures Or(FromBits(xs), FromBits(ys)) == FromBits(OrBits(xs, ys))
  {
    if xs != [] {
      OrFromBits(xs[1..], ys[1..]);
      assert OrBits(xs, ys)[1..] == OrBits(xs[1..], ys[1..]);
      Zero(FromBits(xs));
      Zero(FromBits(ys));
    }
  }

  lemma {:induction false} AndFromBits(xs: seq<bool>, ys: seq<bool>)
    requires |xs| == |ys|
    ensures And(FromBits(xs), FromBits(ys)) == FromBits(AndBits(xs, ys))
  {
    if xs != [] {
      AndFromBits(xs[1..], ys[1..]);
      assert AndBits(xs, ys)[1..] == AndBits(xs[1..], ys[1..]);
    }
  }

  /** Bits above the field are zero. */
  lemma {:induction false} FromBitsFits(bs: seq<bool>, k: nat)
    requires |bs| <= k
    ensures Cat(FromBits(bs), k, 0) == FromBits(bs)
    decreases k
  {
    if bs != [] {
      FromBitsFits(bs[1..], k - 1);
    } else if k > 0 {
      FromBitsFits(bs, k - 1);
    }
  }
}
