/** Sv39 page tables: the tree of tables in memory, the leaf entry each virtual page has in it, and
    the address translation of sections 4.3.2 and 4.4 of the RISC-V Privileged ISA. */
module PageTable {
  import opened Bits
  import opened Memory

  const VA_TOP: nat := 0x80_0000_0000
  const PTE_VALID: nat := 1
  const PTE_READ: nat := 2
  const PTE_WRITE: nat := 4
  const PTE_EXEC: nat := 8

  /** Virtual page numbers have 27 bits, physical page numbers 44. */
  const VPN_TOP: nat := 0x800_0000
  const PPN_TOP: nat := 0x1000_0000_0000

  /** Virtual addresses have 39 bits, 27 of them for the page, and physical page numbers 44. */
  lemma Sv39Sizes()
    ensures VA_TOP == Pow2(39) && VPN_TOP == Pow2(27) && PPN_TOP == Pow2(44)
    ensures PTE_VALID == Pow2(0) && PTE_READ == Pow2(1) && PTE_WRITE == Pow2(2) && PTE_EXEC == Pow2(3)
  {
    ShiftValues();
    assert Pow2(33) == 8589934592;
    assert Pow2(36) == 68719476736;
    assert Pow2(42) == 4398046511104;
  }

  // ---- The bit arithmetic of the source ----

  /** `ptr >> (12 + 9 * level) & 0x1FF` */
  function Vpn(va: nat, level: nat): (r: nat)
    requires level <= 2
    ensures level == 0 ==> r == va / 4096 % 512
    ensures level == 1 ==> r == va / 4096 / 512 % 512
    ensures level == 2 ==> r == va / 4096 / 262144 % 512
  {
    ShiftValues();
    LowBits(va / Pow2(12 + 9 * level), 9);
    Chained(va);
    And(va / Pow2(12 + 9 * level), 0x1FF)
  }

  lemma ShiftValues()
    ensures Pow2(9) == 512 && Pow2(12) == 4096 && Pow2(21) == 2097152 && Pow2(30) == 1073741824
  {
    Pow2Values();
    assert Pow2(15) == 32768;
    assert Pow2(18) == 262144;
    assert Pow2(24) == 16777216;
    assert Pow2(27) == 134217728;
  }

  lemma Chained(va: nat)
    ensures va / 2097152 == va / 4096 / 512 && va / 1073741824 == va / 4096 / 262144
  {
  }

  function PteToPhy(pte: nat): nat {
    pte / 1024 * 4096
  }

  function PhyToPte(addr: nat): nat {
    addr / 4096 * 1024
  }

  /** `(pte) | flag` on an entry whose low ten bits are clear. */
  function PteSetFlag(pte: nat, flag: nat): (r: nat)
    ensures pte % 1024 == 0 && flag < 1024 ==> r == pte + flag
  {
    Pow2Values();
    if pte % 1024 == 0 && flag < 1024 then OrDisjoint(pte, flag, 10); Or(pte, flag) else Or(pte, flag)
  }

  predicate ValidPte(pte: nat) {
    pte % 2 == 1
  }

  /** `pte & PTE_VALID != 0` */
  predicate IsValid(pte: nat)
    ensures IsValid(pte) <==> ValidPte(pte)
  {
    OneBit(pte, 0);
    And(pte, PTE_VALID) != 0
  }

  // ---- Translation, as the Privileged ISA defines it ----

  datatype Translation = Fault | Mapped(pa: nat, flags: nat)

  predicate FlagSet(pte: nat, flag: nat)
    requires flag >= 1
  {
    pte / flag % 2 == 1
  }

  /** The number of pages under one entry of a level. */
  function LevelPages(level: nat): nat {
    if level == 0 then 1 else if level == 1 then 512 else 262144
  }

  /** Steps 2 to 8 from the table on page `a` at `level`, for the virtual page number `v`. */
  function HwWalk(m: Mem, a: nat, level: nat, v: nat): Translation
    requires level <= 2
    decreases level
  {
    if a >= |m| then Fault
    else
      var pte := m[a][v / LevelPages(level) % 512];
      var ppn := pte / 1024;
      if !FlagSet(pte, PTE_VALID) || (!FlagSet(pte, PTE_READ) && FlagSet(pte, PTE_WRITE)) || ppn >= PPN_TOP then Fault
      else if FlagSet(pte, PTE_READ) || FlagSet(pte, PTE_EXEC) then
        if ppn % LevelPages(level) != 0 then Fault
        else Mapped(4096 * (ppn + v % LevelPages(level)), pte % 1024)
      else if level == 0 then Fault
      else HwWalk(m, ppn, level - 1, v)
  }

  /** The translation of a virtual address, whose bits 63 to 39 must all equal bit 38. */
  function Translate(m: Mem, root: nat, va: nat): Translation {
    if va >= VA_TOP / 2 && va < 0x1_0000_0000_0000_0000 - VA_TOP / 2 then Fault
    else
      match HwWalk(m, root, 2, va / 4096 % VPN_TOP)
      case Fault => Fault
      case Mapped(pa, flags) => Mapped(pa + va % 4096, flags)
  }

  // ---- The tree of tables ----

  /** The pages of a page table: the root, the level-1 table of each 1 GiB region (by the top nine
      bits of the page number), and the level-0 table of each 2 MiB region (by the top eighteen). */
  datatype Tree = Tree(root: nat, mid: map<nat, nat>, low: map<nat, nat>)

  ghost function TreePages(t: Tree): set<nat> {
    {t.root} + t.mid.Values + t.low.Values
  }

  /** An interior entry: VALID only, and the page of the next table. */
  function Entry(tables: map<nat, nat>, k: nat): nat {
    if k in tables then 1024 * tables[k] + 1 else 0
  }

  ghost predicate Injective(f: map<nat, nat>) {
    forall i, j :: i in f && j in f && i != j ==> f[i] != f[j]
  }

  /** No table is shared: the tables form a tree. */
  ghost predicate NoSharing(t: Tree) {
    && Injective(t.mid) && Injective(t.low)
    && t.root !in t.mid.Values && t.root !in t.low.Values && t.mid.Values !! t.low.Values
  }

  ghost predicate InMemory(m: Mem, t: Tree) {
    && |m| <= PPN_TOP && t.root < |m|
    && (forall i :: i in t.mid ==> i < 512 && t.mid[i] < |m|)
    && (forall k :: k in t.low ==> k / 512 in t.mid && t.low[k] < |m|)
  }

  ghost predicate RootEntry(m: Mem, t: Tree, i: nat)
    requires InMemory(m, t) && i < 512
  {
    m[t.root][i] == Entry(t.mid, i)
  }

  ghost predicate MidEntry(m: Mem, t: Tree, k: nat)
    requires InMemory(m, t) && k / 512 in t.mid
  {
    m[t.mid[k / 512]][k % 512] == Entry(t.low, k)
  }

  ghost predicate TreeOk(m: Mem, t: Tree) {
    && NoSharing(t) && InMemory(m, t)
    && (forall i {:trigger RootEntry(m, t, i)} :: 0 <= i < 512 ==> RootEntry(m, t, i))
    && (forall k {:trigger MidEntry(m, t, k)} :: k >= 0 && k / 512 in t.mid ==> MidEntry(m, t, k))
  }

  /** The leaf entry of virtual page `v`, 0 where there is no table for it. */
  ghost function Leaf(m: Mem, t: Tree, v: nat): nat
    requires InMemory(m, t)
  {
    if v / 512 in t.low then m[t.low[v / 512]][v % 512] else 0
  }

  /** What a leaf entry means to the hardware. */
  ghost function LeafMeaning(pte: nat): Translation {
    if !FlagSet(pte, PTE_VALID) || (!FlagSet(pte, PTE_READ) && FlagSet(pte, PTE_WRITE)) || pte / 1024 >= PPN_TOP then Fault
    else if FlagSet(pte, PTE_READ) || FlagSet(pte, PTE_EXEC) then Mapped(pte / 1024 * 4096, pte % 1024)
    else Fault
  }

  // ---- The hardware's walk ----

  /** The flags of an entry are those of its low ten bits. */
  lemma FlagsOfPte(p: nat, f: nat)
    requires f < 1024
    ensures (1024 * p + f) % 1024 == f && (1024 * p + f) / 1024 == p
    ensures FlagSet(1024 * p + f, 1) == FlagSet(f, 1) && FlagSet(1024 * p + f, 2) == FlagSet(f, 2)
    ensures FlagSet(1024 * p + f, 4) == FlagSet(f, 4) && FlagSet(1024 * p + f, 8) == FlagSet(f, 8)
  {
    DivUnique(1024 * p + f, 1024, p, f);
    DivUnique(1024 * p + f, 2, 512 * p + f / 2, f % 2);
    DivUnique(1024 * p + f, 4, 256 * p + f / 4, f % 4);
    DivUnique(1024 * p + f, 8, 128 * p + f / 8, f % 8);
    ModEven(512 * p, f);
    ModEven(256 * p, f / 2);
    ModEven(128 * p, f / 4);
    ModEven(64 * p, f / 8);
  }

  lemma ModEven(a: nat, b: nat)
    ensures (2 * a + b) % 2 == b % 2
  {
  }

  /** The indices of a page number at the three levels. */
  lemma PageIndex(v: nat)
    requires v < VPN_TOP
    ensures v / 262144 < 512 && v / 262144 % 512 == v / 262144
    ensures v / 512 / 512 == v / 262144 && v / 1 % 512 == v % 512
  {
    var i, r := v / 262144, v % 262144;
    assert v == 262144 * i + r;
    DivUnique(v, 512, 512 * i + r / 512, r % 512);
    DivUnique(512 * i + r / 512, 512, i, r / 512);
  }

  /** The hardware's walk through the tree ends in the leaf entry of the page, and in no other. */
  lemma WalkMeetsLeaf(m: Mem, t: Tree, v: nat)
    requires TreeOk(m, t) && v < VPN_TOP
    ensures HwWalk(m, t.root, 2, v) == LeafMeaning(Leaf(m, t, v))
  {
    var i, k := v / 262144, v / 512;
    PageIndex(v);
    assert RootEntry(m, t, i);
    if i in t.mid {
      PointerEntry(m, t.root, 2, v, t.mid[i]);
      MidMeetsLeaf(m, t, v);
    } else {
      NoEntry(m, t.root, 2, v);
      assert k !in t.low;
    }
  }

  lemma MidMeetsLeaf(m: Mem, t: Tree, v: nat)
    requires TreeOk(m, t) && v < VPN_TOP && v / 262144 in t.mid
    ensures HwWalk(m, t.mid[v / 262144], 1, v) == LeafMeaning(Leaf(m, t, v))
  {
    var i, k := v / 262144, v / 512;
    PageIndex(v);
    assert MidEntry(m, t, k);
    if k in t.low {
      PointerEntry(m, t.mid[i], 1, v, t.low[k]);
      assert HwWalk(m, t.low[k], 0, v) == LeafMeaning(m[t.low[k]][v % 512]);
    } else {
      NoEntry(m, t.mid[i], 1, v);
    }
  }

  lemma NoEntry(m: Mem, a: nat, level: nat, v: nat)
    requires 1 <= level <= 2 && a < |m| && m[a][v / LevelPages(level) % 512] == 0
    ensures HwWalk(m, a, level, v) == Fault
  {
  }

  lemma PointerEntry(m: Mem, a: nat, level: nat, v: nat, next: nat)
    requires 1 <= level <= 2 && a < |m| && next < PPN_TOP
    requires m[a][v / LevelPages(level) % 512] == 1024 * next + 1
    ensures HwWalk(m, a, level, v) == HwWalk(m, next, level - 1, v)
  {
    FlagsOfPte(next, 1);
  }
}
