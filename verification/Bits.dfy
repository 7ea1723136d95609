/** Machine-word bit operations over the naturals, and the arithmetic that packed fields of the
    memory subsystem rest on: masks are remainders, and an OR of fields that do not overlap is
    a sum. */
module Bits {

  function Pow2(k: nat): (p: nat)
    ensures p >= 1
  {
    if k == 0 then 1 else 2 * Pow2(k - 1)
  }

  /** `a | b` */
  function Or(a: nat, b: nat): nat
    decreases a + b
  {
    if a == 0 then b
    else if b == 0 then a
    else 2 * Or(a / 2, b / 2) + if a % 2 == 1 || b % 2 == 1 then 1 else 0
  }

  /** `a & b` */
  function And(a: nat, b: nat): nat
    decreases a + b
  {
    if a == 0 || b == 0 then 0
    else 2 * And(a / 2, b / 2) + if a % 2 == 1 && b % 2 == 1 then 1 else 0
  }

  /** `a & !b` */
  function AndNot(a: nat, b: nat): nat
    decreases a + b
  {
    if a == 0 then 0
    else if b == 0 then a
    else 2 * AndNot(a / 2, b / 2) + if a % 2 == 1 && b % 2 == 0 then 1 else 0
  }

  /** `x >> k` */
  function Shr(x: nat, k: nat): nat {
    if k == 0 then x else Shr(x / 2, k - 1)
  }

  /** The low `k` bits of `x`. */
  function Low(x: nat, k: nat): nat {
    if k == 0 then 0 else 2 * Low(x / 2, k - 1) + x % 2
  }

  lemma SmallMultiple(d: int, k: int)
    requires -d < d * k < d
    ensures k == 0
  {
    assert k >= 1 ==> d * k >= d;
    assert k <= -1 ==> d * k <= -d;
  }

  lemma DivUnique(x: nat, d: nat, q: nat, r: nat)
    requires x == d * q + r && r < d
    ensures x / d == q && x % d == r
  {
    assert x == d * (x / d) + x % d;
    assert d * (x / d - q) == d * (x / d) - d * q;
    SmallMultiple(d, x / d - q);
  }

  /** A word is its high bits, shifted back, and its low bits. */
  lemma {:induction false} Split(x: nat, k: nat)
    ensures x == Pow2(k) * Shr(x, k) + Low(x, k) && Low(x, k) < Pow2(k)
  {
    if k > 0 {
      Split(x / 2, k - 1);
      DoubleProduct(Pow2(k - 1), Shr(x / 2, k - 1));
      Halve(x);
    }
  }

  lemma DoubleProduct(p: nat, s: nat)
    ensures (2 * p) * s == 2 * (p * s)
  {
  }

  lemma Halve(x: nat)
    ensures x == 2 * (x / 2) + x % 2 && x % 2 < 2
  {
  }

  /** Shifting is dividing, and the low bits are the remainder. */
  lemma ShiftDivides(x: nat, k: nat)
    ensures Shr(x, k) == x / Pow2(k) && Low(x, k) == x % Pow2(k)
  {
    Split(x, k);
    DivUnique(x, Pow2(k), Shr(x, k), Low(x, k));
  }

  lemma {:induction false} MaskLow(a: nat, k: nat)
    ensures And(a, Pow2(k) - 1) == Low(a, k)
  {
    if a == 0 {
      LowZero(k);
    } else if k > 0 {
      MaskLow(a / 2, k - 1);
      var m := Pow2(k) - 1;
      assert m / 2 == Pow2(k - 1) - 1 && m % 2 == 1;
    }
  }

  lemma {:induction false} LowZero(k: nat)
    ensures Low(0, k) == 0 && Shr(0, k) == 0
  {
    if k > 0 {
      LowZero(k - 1);
    }
  }

  /** The low `k` bits of a word are its remainder. */
  lemma LowBits(a: nat, k: nat)
    ensures And(a, Pow2(k) - 1) == a % Pow2(k)
  {
    MaskLow(a, k);
    ShiftDivides(a, k);
  }

  /** A mask and its complement split a word into two parts that add up to it. */
  lemma {:induction false} MaskPartition(a: nat, b: nat)
    ensures And(a, b) + AndNot(a, b) == a
    decreases a + b
  {
    if a != 0 && b != 0 {
      MaskPartition(a / 2, b / 2);
    }
  }

  /** A word with its low `k` bits cleared. */
  lemma HighBits(a: nat, k: nat)
    ensures AndNot(a, Pow2(k) - 1) == a - a % Pow2(k)
    ensures AndNot(a, Pow2(k) - 1) % Pow2(k) == 0
  {
    var h := AndNot(a, Pow2(k) - 1);
    MaskPartition(a, Pow2(k) - 1);
    MaskLow(a, k);
    ShiftDivides(a, k);
    Split(a, k);
    DivUnique(h, Pow2(k), Shr(a, k), 0);
  }

  lemma {:induction false} OrApart(hi: nat, lo: nat, k: nat)
    requires Shr(lo, k) == 0 && Low(hi, k) == 0
    ensures Or(hi, lo) == hi + lo
  {
    if k != 0 {
      OrApart(hi / 2, lo / 2, k - 1);
    }
  }

  /** Fields that do not overlap: an OR of a multiple of 2^k with a value below 2^k is their sum. */
  lemma OrDisjoint(hi: nat, lo: nat, k: nat)
    requires lo < Pow2(k) && hi % Pow2(k) == 0
    ensures Or(hi, lo) == hi + lo
  {
    ShiftDivides(hi, k);
    ShiftDivides(lo, k);
    DivUnique(lo, Pow2(k), 0, lo);
    OrApart(hi, lo, k);
  }

  /** OR works on the high bits alone. */
  lemma {:induction false} OrShift(a: nat, b: nat, k: nat)
    ensures Shr(Or(a, b), k) == Or(Shr(a, k), Shr(b, k))
  {
    if k > 0 {
      OrHalf(a, b);
      OrShift(a / 2, b / 2, k - 1);
    }
  }

  lemma OrHalf(a: nat, b: nat)
    ensures Or(a, b) / 2 == Or(a / 2, b / 2)
    ensures a % 2 == 1 || b % 2 == 1 ==> Or(a, b) % 2 == 1
  {
  }

  lemma {:induction false} BitOps(a: nat, k: nat)
    ensures And(a, Pow2(k)) == if Shr(a, k) % 2 == 1 then Pow2(k) else 0
    ensures Or(a, Pow2(k)) == if Shr(a, k) % 2 == 1 then a else a + Pow2(k)
    ensures Shr(a, k) % 2 == 1 ==> a >= Pow2(k)
    ensures AndNot(a, Pow2(k)) == if Shr(a, k) % 2 == 1 then a - Pow2(k) else a
  {
    if a == 0 {
      LowZero(k);
    } else if k == 0 {
      assert And(a / 2, 0) == 0 && Or(a / 2, 0) == a / 2 && AndNot(a / 2, 0) == a / 2;
    } else {
      BitOps(a / 2, k - 1);
      assert Pow2(k) / 2 == Pow2(k - 1) && Pow2(k) % 2 == 0;
    }
  }

  /** Bit `k` of a word: reading, setting and clearing it. */
  lemma OneBit(a: nat, k: nat)
    ensures And(a, Pow2(k)) == if (a / Pow2(k)) % 2 == 1 then Pow2(k) else 0
    ensures Or(a, Pow2(k)) == if (a / Pow2(k)) % 2 == 1 then a else a + Pow2(k)
    ensures (a / Pow2(k)) % 2 == 1 ==> a >= Pow2(k)
    ensures AndNot(a, Pow2(k)) == if (a / Pow2(k)) % 2 == 1 then a - Pow2(k) else a
  {
    BitOps(a, k);
    ShiftDivides(a, k);
  }

  lemma Pow2Values()
    ensures Pow2(1) == 2 && Pow2(2) == 4 && Pow2(3) == 8
    ensures Pow2(10) == 1024 && Pow2(12) == 4096
  {
    assert Pow2(4) == 16;
    assert Pow2(6) == 64;
    assert Pow2(8) == 256;
  }

  /** `addr & !(PAGE_SIZE - 1)` */
  function PageAlignDown(addr: nat): (r: nat)
    ensures r == addr - addr % 4096
  {
    Pow2Values();
    HighBits(addr, 12);
    AndNot(addr, 4096 - 1)
  }
}
