/** What the hardware makes of the page tables that `page_map` builds. */
module AddressSpace {
  import opened Bits
  import opened Memory
  import opened PageTable
  import opened Mapping

  /** Leaf flags the hardware accepts: readable or executable, and not writable without readable. */
  predicate Usable(flag: nat) {
    (FlagSet(flag, PTE_READ) || FlagSet(flag, PTE_EXEC)) && (FlagSet(flag, PTE_WRITE) ==> FlagSet(flag, PTE_READ))
  }

  /** Setting VALID leaves the permission bits alone. */
  lemma ValidKeepsFlags(flag: nat)
    ensures FlagSet(WithValid(flag), 1)
    ensures FlagSet(WithValid(flag), 2) == FlagSet(flag, 2)
    ensures FlagSet(WithValid(flag), 4) == FlagSet(flag, 4)
    ensures FlagSet(WithValid(flag), 8) == FlagSet(flag, 8)
  {
    Pow2Values();
    WithValidBits(flag, 0);
    WithValidBits(flag, 1);
    WithValidBits(flag, 2);
    WithValidBits(flag, 3);
  }

  /** Of the flag bits, VALID is set and every other one is as it was asked for. */
  lemma WithValidBits(flag: nat, b: nat)
    ensures FlagSet(WithValid(flag), Pow2(b)) <==> b == 0 || FlagSet(flag, Pow2(b))
  {
    ShiftDivides(WithValid(flag), b);
    ShiftDivides(flag, b);
  }

  /** The flags `f` of a translation are those asked for by `flag`: bit by bit, but for VALID, which is set. */
  ghost predicate FlagsAsked(f: nat, flag: nat) {
    f < 1024 && forall b: nat :: b < 10 ==> (FlagSet(f, Pow2(b)) <==> b == 0 || FlagSet(flag, Pow2(b)))
  }

  lemma FlagsAskedFor(flag: nat)
    requires flag < 1024
    ensures FlagsAsked(WithValid(flag), flag)
  {
    forall b: nat | b < 10 ensures FlagSet(WithValid(flag), Pow2(b)) <==> b == 0 || FlagSet(flag, Pow2(b)) {
      WithValidBits(flag, b);
    }
  }

  /** A leaf entry written by `page_map` maps its page exactly when its flags are usable. */
  lemma LeafPteMeaning(p: nat, flag: nat)
    requires flag < 1024 && p < PPN_TOP
    ensures LeafMeaning(LeafPte(p, flag)) == if Usable(flag) then Mapped(4096 * p, WithValid(flag)) else Fault
  {
    FlagsOfPte(p, WithValid(flag));
    ValidKeepsFlags(flag);
  }

  lemma TranslateByLeaf(m: Mem, t: Tree, x: nat)
    requires TreeOk(m, t)
    ensures Translate(m, t.root, x) ==
      if x >= VA_TOP / 2 && x < 0x1_0000_0000_0000_0000 - VA_TOP / 2 then Fault
      else match LeafMeaning(Leaf(m, t, x / 4096 % VPN_TOP))
        case Fault => Fault
        case Mapped(pa, flags) => Mapped(pa + x % 4096, flags)
  {
    WalkMeetsLeaf(m, t, x / 4096 % VPN_TOP);
  }

  lemma RangeMaps(m: Mem, t: Tree, m': Mem, t': Tree, va: nat, pa: nat, size: nat, flag: nat, x: nat)
    requires InMemory(m, t) && TreeOk(m', t') && size >= 1 && flag < 1024
    requires va + size <= VA_TOP && pa + size <= 4096 * PPN_TOP && va % 4096 == pa % 4096
    requires RangeMapped(m, t, va / 4096, pa / 4096, PageSpan(va, size), flag, m', t')
    requires va <= x < va + size
    ensures Translate(m', t'.root, x) ==
      if Usable(flag) && x < VA_TOP / 2 then Mapped(pa + (x - va), WithValid(flag)) else Fault
  {
    var s, q, v := va / 4096, pa / 4096, x / 4096;
    PageOffsets(va, pa, size, x);
    LowPage(x);
    assert Leaf(m', t', v) == LeafPte(q + (v - s), flag);
    PageTranslates(m', t', x, v, q + (v - s), flag);
  }

  /** Sv39 meaning of a finished `page_map`: every byte of the range is translated to the byte at
      the same distance from `pa`, with exactly the flag bits asked for and VALID, exactly when the
      hardware accepts the flags and the address is below 2^38; above, the address is not canonical. */
  lemma RangeTranslates(m: Mem, t: Tree, m': Mem, t': Tree, va: nat, pa: nat, size: nat, flag: nat, x: nat)
    requires InMemory(m, t) && TreeOk(m', t') && size >= 1 && flag < 1024
    requires va + size <= VA_TOP && pa + size <= 4096 * PPN_TOP && va % 4096 == pa % 4096
    requires RangeMapped(m, t, va / 4096, pa / 4096, PageSpan(va, size), flag, m', t')
    requires va <= x < va + size
    ensures var r := Translate(m', t'.root, x);
      if Usable(flag) && x < VA_TOP / 2 then r.Mapped? && r.pa == pa + (x - va) && FlagsAsked(r.flags, flag)
      else r == Fault
  {
    RangeMaps(m, t, m', t', va, pa, size, flag, x);
    FlagsAskedFor(flag);
  }

  lemma LowPage(x: nat)
    requires x < VA_TOP
    ensures x / 4096 % VPN_TOP == x / 4096
  {
  }

  lemma PageTranslates(m: Mem, t: Tree, x: nat, v: nat, p: nat, flag: nat)
    requires TreeOk(m, t) && flag < 1024 && p < PPN_TOP && x < VA_TOP
    requires v == x / 4096 % VPN_TOP && Leaf(m, t, v) == LeafPte(p, flag)
    ensures Translate(m, t.root, x) ==
      if Usable(flag) && x < VA_TOP / 2 then Mapped(4096 * p + x % 4096, WithValid(flag)) else Fault
  {
    TranslateByLeaf(m, t, x);
    LeafPteMeaning(p, flag);
  }

  lemma PageOffsets(va: nat, pa: nat, size: nat, x: nat)
    requires size >= 1 && va % 4096 == pa % 4096 && va <= x < va + size
    requires va + size <= VA_TOP && pa + size <= 4096 * PPN_TOP
    ensures var s, q, v := va / 4096, pa / 4096, x / 4096;
      && s <= v < s + PageSpan(va, size) && v < VPN_TOP && q + (v - s) < PPN_TOP
      && 4096 * (q + (v - s)) + x % 4096 == pa + (x - va)
  {
    var s, q, v := va / 4096, pa / 4096, x / 4096;
    assert va == 4096 * s + va % 4096 && pa == 4096 * q + va % 4096 && x == 4096 * v + x % 4096;
  }

  /** ... and every address outside the pages of the range is translated as before. */
  lemma OthersUnchanged(m: Mem, t: Tree, m': Mem, t': Tree, va: nat, pa: nat, size: nat, flag: nat, x: nat)
    requires TreeOk(m, t) && TreeOk(m', t') && t'.root == t.root && size >= 1
    requires va + size <= VA_TOP / 2 && x < 0x1_0000_0000_0000_0000
    requires RangeMapped(m, t, va / 4096, pa / 4096, PageSpan(va, size), flag, m', t')
    requires x / 4096 < va / 4096 || (va + size - 1) / 4096 < x / 4096
    ensures Translate(m', t.root, x) == Translate(m, t.root, x)
  {
    TranslateByLeaf(m, t, x);
    TranslateByLeaf(m', t', x);
    if x < VA_TOP / 2 || x >= 0x1_0000_0000_0000_0000 - VA_TOP / 2 {
      OtherPage(va, size, x);
    }
  }

  lemma OtherPage(va: nat, size: nat, x: nat)
    requires size >= 1 && va + size <= VA_TOP / 2 && x < 0x1_0000_0000_0000_0000
    requires x < VA_TOP / 2 || x >= 0x1_0000_0000_0000_0000 - VA_TOP / 2
    requires x / 4096 < va / 4096 || (va + size - 1) / 4096 < x / 4096
    ensures var v := x / 4096 % VPN_TOP; v < va / 4096 || v >= va / 4096 + PageSpan(va, size)
  {
    if x < VA_TOP / 2 {
      LowPage(x);
    } else {
      HighHalf(x);
      assert (va + size - 1) / 4096 < VPN_TOP / 2;
    }
  }

  lemma HighHalf(x: nat)
    requires 0x1_0000_0000_0000_0000 - VA_TOP / 2 <= x < 0x1_0000_0000_0000_0000
    ensures x / 4096 % VPN_TOP >= VPN_TOP / 2
  {
    var v := x / 4096;
    assert 0x10_0000_0000_0000 - VPN_TOP / 2 <= v < 0x10_0000_0000_0000;
    DivUnique(v, VPN_TOP, 0x1FF_FFFF, v - VPN_TOP * 0x1FF_FFFF);
  }

  /** Two pages have the same leaf slot exactly when they are the same page. */
  lemma LeafSlotUnique(m: Mem, t: Tree, u: nat, v: nat)
    requires TreeOk(m, t) && u / 512 in t.low && v / 512 in t.low
    ensures 4096 * t.low[u / 512] + 8 * (u % 512) == 4096 * t.low[v / 512] + 8 * (v % 512) <==> u == v
  {
    if t.low[u / 512] == t.low[v / 512] {
      assert u / 512 == v / 512;
    }
  }
}
