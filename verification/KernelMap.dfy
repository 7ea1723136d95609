/** The kernel's own page table: `kpage_init` for the sections of the linker script and any number
    of harts. */
module KernelMap {
  import opened Bits
  import opened Memory
  import opened FreeList
  import opened PagePool
  import opened PageTable
  import opened PageWalk
  import opened Mapping
  import opened AddressSpace

  const UART_BASE: nat := 0x1000_0000
  const DRAM_BASE: nat := 0x8000_0000
  const RW: nat := 6
  const RX: nat := 10

  /** Section boundaries, as the linker script provides them (addresses). */
  datatype Layout = Layout(textEnd: nat, rodataEnd: nat, dataEnd: nat, stacksStart: nat, intstacksStart: nat,
                           bssStart: nat, bssEnd: nat, dramEnd: nat)

  /** The sections in the order and with the sizes of the linker script, for `harts` harts: page
      aligned, none empty, three pages a hart for stacks, four for interrupt stacks, and a guard page. */
  predicate LaidOut(l: Layout, harts: nat) {
    && l.textEnd % 4096 == 0 && l.rodataEnd % 4096 == 0 && l.dataEnd % 4096 == 0
    && l.bssEnd % 4096 == 0 && l.dramEnd % 4096 == 0
    && DRAM_BASE < l.textEnd < l.rodataEnd < l.dataEnd == l.stacksStart
    && l.intstacksStart == l.stacksStart + 0x3000 * harts
    && l.bssStart == l.intstacksStart + 0x4000 * harts + 0x1000
    && l.bssStart < l.bssEnd < l.dramEnd <= VA_TOP / 2
  }

  /** What each page of the kernel's address space is for: the flags it is mapped with, if any. */
  function KernelFlags(l: Layout, v: nat): Option<nat> {
    if v == UART_BASE / 4096 then Some(RW)
    else if v < DRAM_BASE / 4096 then None
    else if v < l.textEnd / 4096 then Some(RX)
    else if v < l.rodataEnd / 4096 then Some(PTE_READ)
    else if v < l.dataEnd / 4096 then Some(RW)
    else if v < l.intstacksStart / 4096 then
      if (v - l.stacksStart / 4096) % 3 == 0 then None else Some(RW)
    else if v < l.bssStart / 4096 - 1 then
      if (v - l.intstacksStart / 4096) % 2 == 0 then None else Some(RW)
    else if v < l.bssStart / 4096 then None
    else if v < l.dramEnd / 4096 then Some(RW)
    else None
  }

  /** The same as a sequence over the pages below the end of memory. */
  ghost predicate FlagsOf(l: Layout, flags: seq<Option<nat>>) {
    && |flags| == l.dramEnd / 4096
    && forall v: nat {:trigger KernelFlags(l, v)} :: v < |flags| ==> flags[v] == KernelFlags(l, v)
  }

  ghost function FlagSeq(l: Layout): (flags: seq<Option<nat>>)
    ensures FlagsOf(l, flags)
  {
    seq(l.dramEnd / 4096, v requires 0 <= v => KernelFlags(l, v))
  }

  function FlagLeaf(f: Option<nat>, v: nat): nat {
    match f
    case None => 0
    case Some(flag) => LeafPte(v, flag)
  }

  /** The pages below `limit` have their final leaf entries, the others none. */
  ghost predicate MappedBelow(m: Mem, t: Tree, flags: seq<Option<nat>>, limit: nat)
    requires InMemory(m, t)
  {
    && limit <= |flags|
    && forall v: nat :: Leaf(m, t, v) == if v < limit then FlagLeaf(flags[v], v) else 0
  }

  /** Between `lo` and `hi`, exactly the pages from `s` to `e` are mapped, with `flag`. */
  ghost predicate Stretch(flags: seq<Option<nat>>, lo: nat, s: nat, e: nat, hi: nat, flag: nat) {
    && lo <= s <= e <= hi <= |flags|
    && forall v: nat :: lo <= v < hi ==> flags[v] == if s <= v < e then Some(flag) else None
  }

  lemma StretchMapped(m: Mem, t: Tree, flags: seq<Option<nat>>, lo: nat, s: nat, n: nat, hi: nat, flag: nat, m': Mem, t': Tree)
    requires InMemory(m, t) && InMemory(m', t')
    requires MappedBelow(m, t, flags, lo) && Stretch(flags, lo, s, s + n, hi, flag)
    requires RangeMapped(m, t, s, s, n, flag, m', t')
    ensures MappedBelow(m', t', flags, hi)
  {
    forall v: nat ensures Leaf(m', t', v) == if v < hi then FlagLeaf(flags[v], v) else 0 {
      assert Leaf(m', t', v) == if s <= v < s + n then LeafPte(v, flag) else Leaf(m, t, v);
    }
  }

  /** The tree of one zeroed page. */
  lemma EmptyTree(m: Mem, root: nat)
    requires root < |m| <= PPN_TOP && m[root] == ZeroPage()
    ensures var t := Tree(root, map[], map[]); TreeOk(m, t) && forall v: nat :: Leaf(m, t, v) == 0
  {
    var t := Tree(root, map[], map[]);
    forall i | 0 <= i < 512 ensures RootEntry(m, t, i) {
    }
  }

  // ---- What the map costs ----

  /** The 1 GiB and 2 MiB regions that the mapped pages up to some page reach, and how many they are. */
  datatype Tally = Tally(mid: set<nat>, low: set<nat>, cost: nat)

  function NextTally(y: Tally, f: Option<nat>, v: nat): Tally {
    if f.None? then y
    else Tally(y.mid + {v / 262144}, y.low + {v / 512},
               y.cost + (if v / 262144 in y.mid then 0 else 1) + (if v / 512 in y.low then 0 else 1))
  }

  function TallyAt(flags: seq<Option<nat>>, limit: nat): Tally
    requires limit <= |flags|
  {
    if limit == 0 then Tally({}, {}, 0) else NextTally(TallyAt(flags, limit - 1), flags[limit - 1], limit - 1)
  }

  /** The tables below the root that the kernel's pages need. */
  function KernelTables(flags: seq<Option<nat>>): nat {
    TallyAt(flags, |flags|).cost
  }

  /** A mapped page below `limit` lies in region `r` of `size` pages. */
  ghost predicate Hit(flags: seq<Option<nat>>, limit: nat, size: nat, r: nat)
    requires limit <= |flags| && size >= 1
  {
    exists v :: 0 <= v < limit && flags[v].Some? && v / size == r
  }

  /** They are one for each 1 GiB region and one for each 2 MiB region that a mapped page lies in. */
  lemma {:induction false} TallyRegions(flags: seq<Option<nat>>, limit: nat, r: nat)
    requires limit <= |flags|
    ensures r in TallyAt(flags, limit).mid <==> Hit(flags, limit, 262144, r)
    ensures r in TallyAt(flags, limit).low <==> Hit(flags, limit, 512, r)
  {
    if limit > 0 {
      TallyRegions(flags, limit - 1, r);
      HitMore(flags, limit, 262144, r);
      HitMore(flags, limit, 512, r);
    }
  }

  lemma HitMore(flags: seq<Option<nat>>, limit: nat, size: nat, r: nat)
    requires 1 <= limit <= |flags| && size >= 1
    ensures Hit(flags, limit, size, r) <==>
      Hit(flags, limit - 1, size, r) || (flags[limit - 1].Some? && (limit - 1) / size == r)
  {
    if Hit(flags, limit - 1, size, r) {
      var v :| 0 <= v < limit - 1 && flags[v].Some? && v / size == r;
      assert 0 <= v < limit && flags[v].Some? && v / size == r;
    }
  }

  lemma {:induction false} TallyCost(flags: seq<Option<nat>>, limit: nat)
    requires limit <= |flags|
    ensures TallyAt(flags, limit).cost == |TallyAt(flags, limit).mid| + |TallyAt(flags, limit).low|
  {
    if limit > 0 {
      TallyCost(flags, limit - 1);
      var y, v := TallyAt(flags, limit - 1), limit - 1;
      AddOne(y.mid, v / 262144);
      AddOne(y.low, v / 512);
    }
  }

  lemma AddOne(s: set<nat>, x: nat)
    ensures |s + {x}| == |s| + if x in s then 0 else 1
  {
    if x in s {
      assert s + {x} == s;
    }
  }

  ghost predicate TallyStep(flags: seq<Option<nat>>, ys: seq<Tally>, v: nat)
    requires v < |flags| && |ys| == |flags| + 1
  {
    ys[v + 1] == NextTally(ys[v], flags[v], v)
  }

  /** The tallies at every page. */
  ghost predicate Tallied(flags: seq<Option<nat>>, ys: seq<Tally>) {
    && |ys| == |flags| + 1 && ys[0] == Tally({}, {}, 0)
    && forall v {:trigger TallyStep(flags, ys, v)} :: 0 <= v < |flags| ==> TallyStep(flags, ys, v)
  }

  ghost function TallySeq(flags: seq<Option<nat>>): (ys: seq<Tally>)
    ensures Tallied(flags, ys) && ys[|flags|].cost == KernelTables(flags)
  {
    seq(|flags| + 1, v requires 0 <= v <= |flags| => TallyAt(flags, v))
  }

  lemma {:induction false} CostGrows(flags: seq<Option<nat>>, ys: seq<Tally>, a: nat, b: nat)
    requires Tallied(flags, ys) && a <= b <= |flags|
    ensures ys[a].cost <= ys[b].cost
    decreases b
  {
    if a < b {
      CostGrows(flags, ys, a, b - 1);
      assert TallyStep(flags, ys, b - 1);
    }
  }

  lemma {:induction false} EmptyStretch(flags: seq<Option<nat>>, ys: seq<Tally>, a: nat, b: nat)
    requires Tallied(flags, ys) && a <= b <= |flags| && forall v: nat :: a <= v < b ==> flags[v].None?
    ensures ys[b] == ys[a]
    decreases b
  {
    if a < b {
      EmptyStretch(flags, ys, a, b - 1);
      assert TallyStep(flags, ys, b - 1);
    }
  }

  lemma {:induction false} FullStretch(flags: seq<Option<nat>>, ys: seq<Tally>, s: nat, d: nat)
    requires Tallied(flags, ys) && s + d <= |flags| && forall v: nat :: s <= v < s + d ==> flags[v].Some?
    ensures ys[s + d].mid == ys[s].mid + Regions(s, d, 262144) && ys[s + d].low == ys[s].low + Regions(s, d, 512)
    ensures ys[s + d].cost ==
      ys[s].cost + NewRegions(ys[s].mid, s, d, 262144) + NewRegions(ys[s].low, s, d, 512)
    decreases d
  {
    if d > 0 {
      FullStretch(flags, ys, s, d - 1);
      assert TallyStep(flags, ys, s + d - 1);
    }
  }

  /** The tables are exactly those of the tally, and the free list has paid for them. */
  ghost predicate PaidFor(list: seq<nat>, t: Tree, y: Tally, list': seq<nat>) {
    t.mid.Keys == y.mid && t.low.Keys == y.low && y.cost <= |list| && list' == list[y.cost..]
  }

  /** The first `d` pages of a stretch add to the tally what `page_map` pays for them. */
  lemma StretchTally(t: Tree, flags: seq<Option<nat>>, ys: seq<Tally>, lo: nat, s: nat, n: nat, hi: nat, flag: nat, d: nat)
    requires Tallied(flags, ys) && Stretch(flags, lo, s, s + n, hi, flag) && d <= n
    requires t.mid.Keys == ys[lo].mid && t.low.Keys == ys[lo].low
    ensures ys[s + d].cost == ys[lo].cost + Cost(t, s, d)
    ensures ys[s + d].mid == t.mid.Keys + Regions(s, d, 262144) && ys[s + d].low == t.low.Keys + Regions(s, d, 512)
  {
    EmptyStretch(flags, ys, lo, s);
    FullStretch(flags, ys, s, d);
  }

  /** A finished stretch has been paid for. */
  lemma StretchPaid(list: seq<nat>, t: Tree, flags: seq<Option<nat>>, ys: seq<Tally>, lo: nat, s: nat, n: nat, hi: nat,
                    flag: nat, list1: seq<nat>, list2: seq<nat>, t2: Tree)
    ensures
      && Tallied(flags, ys) && Stretch(flags, lo, s, s + n, hi, flag)
      && PaidFor(list, t, ys[lo], list1) && Paid(list1, t, s, n, list2, t2)
      ==> PaidFor(list, t2, ys[hi], list2)
  {
    if && Tallied(flags, ys) && Stretch(flags, lo, s, s + n, hi, flag)
       && PaidFor(list, t, ys[lo], list1) && Paid(list1, t, s, n, list2, t2) {
      StretchTally(t, flags, ys, lo, s, n, hi, flag, n);
      EmptyStretch(flags, ys, s + n, hi);
    }
  }

  /** The pages that were free do not pay for all tables. */
  ghost predicate TooFew(flags: seq<Option<nat>>, ys: seq<Tally>, list: seq<nat>) {
    |ys| > |flags| && ys[|flags|].cost > |list|
  }

  /** A stretch that runs out of pages makes the whole map too expensive. */
  lemma StretchUnpaid(list: seq<nat>, t: Tree, flags: seq<Option<nat>>, ys: seq<Tally>, lo: nat, s: nat, n: nat, hi: nat,
                      flag: nat, list1: seq<nat>, d: nat)
    ensures
      && Tallied(flags, ys) && Stretch(flags, lo, s, s + n, hi, flag)
      && PaidFor(list, t, ys[lo], list1) && d < n && Cost(t, s, d + 1) > |list1|
      ==> TooFew(flags, ys, list)
  {
    if && Tallied(flags, ys) && Stretch(flags, lo, s, s + n, hi, flag)
       && PaidFor(list, t, ys[lo], list1) && d < n && Cost(t, s, d + 1) > |list1| {
      StretchTally(t, flags, ys, lo, s, n, hi, flag, d + 1);
      CostGrows(flags, ys, s + d + 1, |flags|);
    }
  }

  // ---- One mapping ----

  /** One identity mapping of `kpage_init`, of the `n` pages from `s` on, of which the first `d` are made. */
  method MapStretch(pool: Pool, root: nat, va: nat, size: nat, flag: nat, ghost t: Tree, ghost flags: seq<Option<nat>>,
                    ghost lo: nat, ghost hi: nat, ghost s: nat, ghost n: nat)
    returns (r: MapResult, ghost t': Tree, ghost d: nat)
    requires Owned(pool, t) && root == 4096 * t.root && flag < 1024 && size >= 1
    requires s == va / 4096 && n == PageSpan(va, size)
    requires MappedBelow(pool.ram.pages, t, flags, lo)
    requires Stretch(flags, lo, s, s + n, hi, flag) && hi <= VPN_TOP
    modifies pool, pool.ram
    ensures Owned(pool, t') && t'.root == t.root
    ensures Footprint(old(pool.ram.pages), old(pool.list), t, pool.ram.pages, pool.list, t')
    ensures r == Done || r == Error(VmError.OutOfPages)
    ensures r == Done ==> MappedBelow(pool.ram.pages, t', flags, hi)
    ensures r == Done ==> Paid(old(pool.list), t, s, n, pool.list, t')
    ensures r != Done ==> d < n && Cost(t, s, d + 1) > |old(pool.list)|
  {
    ghost var m := pool.ram.pages;
    r, t', d := PageMap(pool, root, va, va, size, flag, t);
    assert !ValidPte(Leaf(m, t, s + d));
    if r == Done {
      StretchMapped(m, t, flags, lo, s, n, hi, flag, pool.ram.pages, t');
    }
  }

  lemma AlignedSpan(va: nat, size: nat)
    requires va % 4096 == 0 && size % 4096 == 0 && size >= 1
    ensures va / 4096 + PageSpan(va, size) == (va + size) / 4096
  {
  }

  // ---- The stretches of the layout ----

  lemma LayoutPages(l: Layout, harts: nat)
    requires LaidOut(l, harts)
    ensures l.dataEnd == l.stacksStart && l.stacksStart % 4096 == 0
    ensures l.intstacksStart / 4096 == l.stacksStart / 4096 + 3 * harts && l.intstacksStart % 4096 == 0
    ensures l.bssStart / 4096 == l.intstacksStart / 4096 + 4 * harts + 1 && l.bssStart % 4096 == 0
    ensures DRAM_BASE / 4096 < l.textEnd / 4096 < l.rodataEnd / 4096 < l.dataEnd / 4096
    ensures l.bssStart / 4096 < l.bssEnd / 4096 < l.dramEnd / 4096 <= VPN_TOP / 2
  {
  }

  lemma FlagsBetween(l: Layout, flags: seq<Option<nat>>, lo: nat, s: nat, e: nat, hi: nat, flag: nat)
    requires FlagsOf(l, flags) && lo <= s <= e <= hi <= |flags|
    requires forall v: nat :: lo <= v < hi ==> KernelFlags(l, v) == if s <= v < e then Some(flag) else None
    ensures Stretch(flags, lo, s, e, hi, flag)
  {
    forall v: nat | lo <= v < hi ensures flags[v] == if s <= v < e then Some(flag) else None {
      assert flags[v] == KernelFlags(l, v);
    }
  }

  lemma SectionStretches(l: Layout, harts: nat, flags: seq<Option<nat>>)
    requires LaidOut(l, harts) && flags == FlagSeq(l)
    ensures Stretch(flags, 0, UART_BASE / 4096, UART_BASE / 4096 + 1, DRAM_BASE / 4096, RW)
    ensures Stretch(flags, DRAM_BASE / 4096, DRAM_BASE / 4096, l.textEnd / 4096, l.textEnd / 4096, RX)
    ensures Stretch(flags, l.textEnd / 4096, l.textEnd / 4096, l.rodataEnd / 4096, l.rodataEnd / 4096, PTE_READ)
    ensures Stretch(flags, l.rodataEnd / 4096, l.rodataEnd / 4096, l.dataEnd / 4096, l.dataEnd / 4096, RW)
  {
    LayoutPages(l, harts);
    var a, b, c, d := DRAM_BASE / 4096, l.textEnd / 4096, l.rodataEnd / 4096, l.dataEnd / 4096;
    FlagsBetween(l, flags, 0, UART_BASE / 4096, UART_BASE / 4096 + 1, a, RW);
    FlagsBetween(l, flags, a, a, b, b, RX);
    FlagsBetween(l, flags, b, b, c, c, PTE_READ);
    FlagsBetween(l, flags, c, c, d, d, RW);
  }

  lemma TailStretches(l: Layout, harts: nat, flags: seq<Option<nat>>)
    requires LaidOut(l, harts) && flags == FlagSeq(l)
    ensures Stretch(flags, l.bssStart / 4096 - 1, l.bssStart / 4096, l.bssEnd / 4096, l.bssEnd / 4096, RW)
    ensures Stretch(flags, l.bssEnd / 4096, l.bssEnd / 4096, l.dramEnd / 4096, l.dramEnd / 4096, RW)
  {
    LayoutPages(l, harts);
    var a, b, c := l.bssStart / 4096, l.bssEnd / 4096, l.dramEnd / 4096;
    FlagsBetween(l, flags, a - 1, a, b, b, RW);
    FlagsBetween(l, flags, b, b, c, c, RW);
  }

  lemma StackStretch(l: Layout, harts: nat, flags: seq<Option<nat>>, k: nat)
    requires LaidOut(l, harts) && flags == FlagSeq(l) && k < harts
    ensures var a := l.stacksStart / 4096 + 3 * k; Stretch(flags, a, a + 1, a + 3, a + 3, RW)
  {
    LayoutPages(l, harts);
    var b := l.stacksStart / 4096;
    var a := b + 3 * k;
    forall v: nat | a <= v < a + 3 ensures flags[v] == if a + 1 <= v then Some(RW) else None {
      DivUnique(v - b, 3, k, v - a);
      assert flags[v] == KernelFlags(l, v);
    }
  }

  lemma IntStackStretch(l: Layout, harts: nat, flags: seq<Option<nat>>, k: nat)
    requires LaidOut(l, harts) && flags == FlagSeq(l) && k < 2 * harts
    ensures var a := l.intstacksStart / 4096 + 2 * k; Stretch(flags, a, a + 1, a + 2, a + 2, RW)
  {
    LayoutPages(l, harts);
    var b := l.intstacksStart / 4096;
    var a := b + 2 * k;
    forall v: nat | a <= v < a + 2 ensures flags[v] == if a + 1 <= v then Some(RW) else None {
      DivUnique(v - b, 2, k, v - a);
      assert flags[v] == KernelFlags(l, v);
    }
  }

  // ---- kpage_init ----

  /** Everything written since `m` went to tables and free pages, and `t` is the page table. */
  ghost predicate TablesKept(pool: Pool, m: Mem, list: seq<nat>, t0: Tree, root: nat, t: Tree)
    reads pool, pool.ram
  {
    && Owned(pool, t) && root == 4096 * t.root && Footprint(m, list, t0, pool.ram.pages, pool.list, t)
  }

  ghost predicate KernelAt(pool: Pool, m: Mem, list: seq<nat>, t0: Tree, root: nat, t: Tree,
                           flags: seq<Option<nat>>, ys: seq<Tally>, limit: nat)
    reads pool, pool.ram
  {
    && TablesKept(pool, m, list, t0, root, t) && MappedBelow(pool.ram.pages, t, flags, limit)
    && limit < |ys| && PaidFor(list, t, ys[limit], pool.list)
  }

  /** One mapping of `kpage_init`: the pages between `lo` and `hi` get their leaf entries. */
  method MapNext(pool: Pool, root: nat, va: nat, size: nat, flag: nat,
                 ghost m: Mem, ghost list: seq<nat>, ghost t0: Tree, ghost t: Tree,
                 ghost flags: seq<Option<nat>>, ghost ys: seq<Tally>, ghost lo: nat, ghost hi: nat)
    returns (r: MapResult, ghost t': Tree)
    requires Tallied(flags, ys) && KernelAt(pool, m, list, t0, root, t, flags, ys, lo)
    requires flag < 1024 && size >= 1 && va % 4096 == 0 && size % 4096 == 0
    requires Stretch(flags, lo, va / 4096, (va + size) / 4096, hi, flag) && hi <= VPN_TOP
    modifies pool, pool.ram
    ensures TablesKept(pool, m, list, t0, root, t') && (r == Done || r == Error(VmError.OutOfPages))
    ensures if r == Done then KernelAt(pool, m, list, t0, root, t', flags, ys, hi) else TooFew(flags, ys, list)
  {
    ghost var m1, list1, d := pool.ram.pages, pool.list, 0;
    ghost var s, n := va / 4096, PageSpan(va, size);
    AlignedSpan(va, size);
    r, t', d := MapStretch(pool, root, va, size, flag, t, flags, lo, hi, s, n);
    FootprintTrans(m, list, t0, m1, list1, t, pool.ram.pages, pool.list, t');
    StretchPaid(list, t, flags, ys, lo, s, n, hi, flag, list1, pool.list, t');
    StretchUnpaid(list, t, flags, ys, lo, s, n, hi, flag, list1, d);
  }

  /** Two mappings, one after the other. */
  method MapTwo(pool: Pool, root: nat, va: nat, size: nat, flag: nat, va2: nat, size2: nat, flag2: nat,
                ghost m: Mem, ghost list: seq<nat>, ghost t0: Tree, ghost t: Tree,
                ghost flags: seq<Option<nat>>, ghost ys: seq<Tally>,
                ghost lo: nat, ghost mid: nat, ghost hi: nat)
    returns (r: MapResult, ghost t': Tree)
    requires Tallied(flags, ys) && KernelAt(pool, m, list, t0, root, t, flags, ys, lo)
    requires flag < 1024 && flag2 < 1024 && size >= 1 && size2 >= 1 && hi <= VPN_TOP
    requires va % 4096 == 0 && size % 4096 == 0 && va2 % 4096 == 0 && size2 % 4096 == 0
    requires Stretch(flags, lo, va / 4096, (va + size) / 4096, mid, flag)
    requires Stretch(flags, mid, va2 / 4096, (va2 + size2) / 4096, hi, flag2)
    modifies pool, pool.ram
    ensures TablesKept(pool, m, list, t0, root, t') && (r == Done || r == Error(VmError.OutOfPages))
    ensures if r == Done then KernelAt(pool, m, list, t0, root, t', flags, ys, hi) else TooFew(flags, ys, list)
  {
    r, t' := MapNext(pool, root, va, size, flag, m, list, t0, t, flags, ys, lo, mid);
    if r != Done { return; }
    r, t' := MapNext(pool, root, va2, size2, flag2, m, list, t0, t', flags, ys, mid, hi);
  }

  /** The UART and the text section. */
  method MapText(pool: Pool, root: nat, l: Layout, harts: nat,
                 ghost m: Mem, ghost list: seq<nat>, ghost t0: Tree, ghost t: Tree,
                 ghost flags: seq<Option<nat>>, ghost ys: seq<Tally>)
    returns (r: MapResult, ghost t': Tree)
    requires LaidOut(l, harts) && flags == FlagSeq(l) && Tallied(flags, ys)
    requires KernelAt(pool, m, list, t0, root, t, flags, ys, 0)
    modifies pool, pool.ram
    ensures TablesKept(pool, m, list, t0, root, t') && (r == Done || r == Error(VmError.OutOfPages))
    ensures if r == Done then KernelAt(pool, m, list, t0, root, t', flags, ys, l.textEnd / 4096) else TooFew(flags, ys, list)
  {
    SectionStretches(l, harts, flags);
    LayoutPages(l, harts);
    r, t' := MapTwo(pool, root, UART_BASE, 4096, RW, DRAM_BASE, l.textEnd - DRAM_BASE, RX,
                    m, list, t0, t, flags, ys, 0, DRAM_BASE / 4096, l.textEnd / 4096);
  }

  /** The read-only data and data sections. */
  method MapData(pool: Pool, root: nat, l: Layout, harts: nat,
                 ghost m: Mem, ghost list: seq<nat>, ghost t0: Tree, ghost t: Tree,
                 ghost flags: seq<Option<nat>>, ghost ys: seq<Tally>)
    returns (r: MapResult, ghost t': Tree)
    requires LaidOut(l, harts) && flags == FlagSeq(l) && Tallied(flags, ys)
    requires KernelAt(pool, m, list, t0, root, t, flags, ys, l.textEnd / 4096)
    modifies pool, pool.ram
    ensures TablesKept(pool, m, list, t0, root, t') && (r == Done || r == Error(VmError.OutOfPages))
    ensures if r == Done then KernelAt(pool, m, list, t0, root, t', flags, ys, l.dataEnd / 4096) else TooFew(flags, ys, list)
  {
    SectionStretches(l, harts, flags);
    LayoutPages(l, harts);
    r, t' := MapTwo(pool, root, l.textEnd, l.rodataEnd - l.textEnd, PTE_READ, l.rodataEnd, l.dataEnd - l.rodataEnd, RW,
                    m, list, t0, t, flags, ys, l.textEnd / 4096, l.rodataEnd / 4096, l.dataEnd / 4096);
  }

  /** The `n` pages of stack number `s` from page `b` on, above their guard page `a`. */
  method MapStack(pool: Pool, root: nat, va: nat, n: nat,
                  ghost m: Mem, ghost list: seq<nat>, ghost t0: Tree, ghost t: Tree,
                  ghost flags: seq<Option<nat>>, ghost ys: seq<Tally>, ghost b: nat, ghost count: nat, ghost s: nat, ghost a: nat)
    returns (r: MapResult, ghost t': Tree)
    requires Tallied(flags, ys) && KernelAt(pool, m, list, t0, root, t, flags, ys, a)
    requires Stacks(flags, b, n, count) && s < count && a == b + (n + 1) * s
    requires va == 4096 * (a + 1) && n >= 1 && a + 1 + n <= VPN_TOP
    modifies pool, pool.ram
    ensures TablesKept(pool, m, list, t0, root, t') && (r == Done || r == Error(VmError.OutOfPages))
    ensures if r == Done then KernelAt(pool, m, list, t0, root, t', flags, ys, a + 1 + n) else TooFew(flags, ys, list)
  {
    assert StackAt(flags, b, n, s);
    AlignedPages(va, a + 1, n);
    AlignedPages(4096 * n, n, 0);
    r, t' := MapNext(pool, root, va, 4096 * n, RW, m, list, t0, t, flags, ys, a, a + 1 + n);
  }

  /** Page `a` is a guard page, and the `n` pages above it are a stack. */
  ghost predicate GuardedAt(flags: seq<Option<nat>>, a: nat, n: nat) {
    Stretch(flags, a, a + 1, a + 1 + n, a + 1 + n, RW)
  }

  ghost predicate StackAt(flags: seq<Option<nat>>, b: nat, n: nat, s: nat) {
    GuardedAt(flags, b + (n + 1) * s, n)
  }

  /** From page `b` on there are `count` stacks of `n` pages, each above a guard page. */
  ghost predicate Stacks(flags: seq<Option<nat>>, b: nat, n: nat, count: nat) {
    forall s {:trigger StackAt(flags, b, n, s)} :: 0 <= s < count ==> StackAt(flags, b, n, s)
  }

  lemma LayoutStacks(l: Layout, harts: nat, flags: seq<Option<nat>>)
    requires LaidOut(l, harts) && flags == FlagSeq(l)
    ensures Stacks(flags, l.stacksStart / 4096, 2, harts) && Stacks(flags, l.intstacksStart / 4096, 1, 2 * harts)
  {
    forall s | 0 <= s < harts ensures StackAt(flags, l.stacksStart / 4096, 2, s) {
      StackStretch(l, harts, flags, s);
    }
    forall s | 0 <= s < 2 * harts ensures StackAt(flags, l.intstacksStart / 4096, 1, s) {
      IntStackStretch(l, harts, flags, s);
    }
  }

  /** Two pages of stack a hart, each above a guard page, from page `b` to page `e`. */
  method MapStacks(pool: Pool, root: nat, base: nat, harts: nat,
                   ghost m: Mem, ghost list: seq<nat>, ghost t0: Tree, ghost t: Tree,
                   ghost flags: seq<Option<nat>>, ghost ys: seq<Tally>, ghost b: nat, ghost e: nat)
    returns (r: MapResult, ghost t': Tree)
    requires base == 4096 * b && Stacks(flags, b, 2, harts) && e == b + 3 * harts && e <= VPN_TOP
    requires Tallied(flags, ys) && KernelAt(pool, m, list, t0, root, t, flags, ys, b)
    modifies pool, pool.ram
    ensures TablesKept(pool, m, list, t0, root, t') && (r == Done || r == Error(VmError.OutOfPages))
    ensures if r == Done then KernelAt(pool, m, list, t0, root, t', flags, ys, e) else TooFew(flags, ys, list)
  {
    t', r := t, Done;
    ghost var a := b;
    for s := 0 to harts
      invariant a == b + 3 * s && KernelAt(pool, m, list, t0, root, t', flags, ys, a)
    {
      var stack := base + 4096 * (1 + s * 3);
      r, t' := MapStack(pool, root, stack, 2, m, list, t0, t', flags, ys, b, harts, s, a);
      if r != Done { return; }
      a := a + 1 + 2;
    }
    r := Done;
  }

  lemma AlignedPages(va: nat, a: nat, n: nat)
    requires va == 4096 * a
    ensures va % 4096 == 0 && va / 4096 == a && (va + 4096 * n) / 4096 == a + n
  {
    DivUnique(va, 4096, a, 0);
    DivUnique(va + 4096 * n, 4096, a + n, 0);
  }


  /** The interrupt stacks of hart `i`: a page each, above a guard page each, the pages `a` and `a + 2`. */
  method MapIntPair(pool: Pool, root: nat, lower: nat, harts: nat,
                    ghost m: Mem, ghost list: seq<nat>, ghost t0: Tree, ghost t: Tree,
                    ghost flags: seq<Option<nat>>, ghost ys: seq<Tally>, ghost b: nat, ghost i: nat, ghost a: nat)
    returns (r: MapResult, ghost t': Tree)
    requires i < harts && a == b + 4 * i && lower == 4096 * (a + 1) && Stacks(flags, b, 1, 2 * harts) && a + 4 <= VPN_TOP
    requires Tallied(flags, ys) && KernelAt(pool, m, list, t0, root, t, flags, ys, a)
    modifies pool, pool.ram
    ensures TablesKept(pool, m, list, t0, root, t') && (r == Done || r == Error(VmError.OutOfPages))
    ensures if r == Done then KernelAt(pool, m, list, t0, root, t', flags, ys, a + 4) else TooFew(flags, ys, list)
  {
    r, t' := MapStack(pool, root, lower, 1, m, list, t0, t, flags, ys, b, 2 * harts, 2 * i, a);
    if r != Done { return; }
    var upper := lower + 4096 * 2;
    r, t' := MapStack(pool, root, upper, 1, m, list, t0, t', flags, ys, b, 2 * harts, 2 * i + 1, a + 2);
  }

  /** Two pages of interrupt stack a hart, each above a guard page, from page `b` to page `e`. */
  method MapIntStacks(pool: Pool, root: nat, base: nat, harts: nat,
                      ghost m: Mem, ghost list: seq<nat>, ghost t0: Tree, ghost t: Tree,
                      ghost flags: seq<Option<nat>>, ghost ys: seq<Tally>, ghost b: nat, ghost e: nat)
    returns (r: MapResult, ghost t': Tree)
    requires base == 4096 * b && Stacks(flags, b, 1, 2 * harts) && e == b + 4 * harts && e <= VPN_TOP
    requires Tallied(flags, ys) && KernelAt(pool, m, list, t0, root, t, flags, ys, b)
    modifies pool, pool.ram
    ensures TablesKept(pool, m, list, t0, root, t') && (r == Done || r == Error(VmError.OutOfPages))
    ensures if r == Done then KernelAt(pool, m, list, t0, root, t', flags, ys, e) else TooFew(flags, ys, list)
  {
    t', r := t, Done;
    ghost var a := b;
    for i := 0 to harts
      invariant a == b + 4 * i && KernelAt(pool, m, list, t0, root, t', flags, ys, a)
    {
      var lower := base + 4096 * (1 + i * 4);
      r, t' := MapIntPair(pool, root, lower, harts, m, list, t0, t', flags, ys, b, i, a);
      if r != Done { return; }
      a := a + 4;
    }
    r := Done;
  }

  /** All stacks, from page `b` to page `d`. */
  method MapAllStacks(pool: Pool, root: nat, stacks: nat, intstacks: nat, harts: nat,
                      ghost m: Mem, ghost list: seq<nat>, ghost t0: Tree, ghost t: Tree,
                      ghost flags: seq<Option<nat>>, ghost ys: seq<Tally>, ghost b: nat, ghost c: nat, ghost d: nat)
    returns (r: MapResult, ghost t': Tree)
    requires stacks == 4096 * b && intstacks == 4096 * c && c == b + 3 * harts && d == c + 4 * harts && d <= VPN_TOP
    requires Stacks(flags, b, 2, harts) && Stacks(flags, c, 1, 2 * harts)
    requires Tallied(flags, ys) && KernelAt(pool, m, list, t0, root, t, flags, ys, b)
    modifies pool, pool.ram
    ensures TablesKept(pool, m, list, t0, root, t') && (r == Done || r == Error(VmError.OutOfPages))
    ensures if r == Done then KernelAt(pool, m, list, t0, root, t', flags, ys, d) else TooFew(flags, ys, list)
  {
    r, t' := MapStacks(pool, root, stacks, harts, m, list, t0, t, flags, ys, b, c);
    if r != Done { return; }
    r, t' := MapIntStacks(pool, root, intstacks, harts, m, list, t0, t', flags, ys, c, d);
  }

  /** The bss section, and the rest of memory as the heap. */
  method MapTail(pool: Pool, root: nat, l: Layout, harts: nat,
                 ghost m: Mem, ghost list: seq<nat>, ghost t0: Tree, ghost t: Tree,
                 ghost flags: seq<Option<nat>>, ghost ys: seq<Tally>, ghost d: nat)
    returns (r: MapResult, ghost t': Tree)
    requires LaidOut(l, harts) && flags == FlagSeq(l) && Tallied(flags, ys)
    requires KernelAt(pool, m, list, t0, root, t, flags, ys, d) && d == l.bssStart / 4096 - 1
    modifies pool, pool.ram
    ensures TablesKept(pool, m, list, t0, root, t') && (r == Done || r == Error(VmError.OutOfPages))
    ensures if r == Done then KernelAt(pool, m, list, t0, root, t', flags, ys, l.dramEnd / 4096) else TooFew(flags, ys, list)
  {
    LayoutPages(l, harts);
    TailStretches(l, harts, flags);
    r, t' := MapTwo(pool, root, l.bssStart, l.bssEnd - l.bssStart, RW, l.bssEnd, l.dramEnd - l.bssEnd, RW,
                    m, list, t0, t, flags, ys, d, l.bssEnd / 4096, l.dramEnd / 4096);
  }

  datatype InitResult = Root(base: nat) | InitError(error: VmError) | InitAbort

  /** The sections before the stacks. */
  method MapSections(pool: Pool, root: nat, l: Layout, harts: nat,
                     ghost m: Mem, ghost list: seq<nat>, ghost t0: Tree, ghost t: Tree,
                     ghost flags: seq<Option<nat>>, ghost ys: seq<Tally>)
    returns (r: MapResult, ghost t': Tree)
    requires LaidOut(l, harts) && flags == FlagSeq(l) && Tallied(flags, ys)
    requires KernelAt(pool, m, list, t0, root, t, flags, ys, 0)
    modifies pool, pool.ram
    ensures TablesKept(pool, m, list, t0, root, t') && (r == Done || r == Error(VmError.OutOfPages))
    ensures if r == Done then KernelAt(pool, m, list, t0, root, t', flags, ys, l.stacksStart / 4096) else TooFew(flags, ys, list)
  {
    r, t' := MapText(pool, root, l, harts, m, list, t0, t, flags, ys);
    if r != Done { return; }
    r, t' := MapData(pool, root, l, harts, m, list, t0, t', flags, ys);
  }

  /** All mappings, in order, on the empty table. */
  method MapAll(pool: Pool, root: nat, l: Layout, harts: nat,
                ghost m: Mem, ghost list: seq<nat>, ghost t0: Tree, ghost t: Tree,
                ghost flags: seq<Option<nat>>, ghost ys: seq<Tally>)
    returns (r: MapResult, ghost t': Tree)
    requires LaidOut(l, harts) && flags == FlagSeq(l) && Tallied(flags, ys)
    requires KernelAt(pool, m, list, t0, root, t, flags, ys, 0)
    modifies pool, pool.ram
    ensures TablesKept(pool, m, list, t0, root, t') && (r == Done || r == Error(VmError.OutOfPages))
    ensures if r == Done then KernelAt(pool, m, list, t0, root, t', flags, ys, l.dramEnd / 4096) else TooFew(flags, ys, list)
  {
    ghost var b, c, d := l.stacksStart / 4096, l.intstacksStart / 4096, l.bssStart / 4096 - 1;
    StackPages(l, harts);
    LayoutStacks(l, harts, flags);
    r, t' := MapSections(pool, root, l, harts, m, list, t0, t, flags, ys);
    if r != Done { return; }
    r, t' := MapAllStacks(pool, root, l.stacksStart, l.intstacksStart, harts, m, list, t0, t', flags, ys, b, c, d);
    if r != Done { return; }
    r, t' := MapTail(pool, root, l, harts, m, list, t0, t', flags, ys, d);
  }

  lemma StackPages(l: Layout, harts: nat)
    requires LaidOut(l, harts)
    ensures var b, c, d := l.stacksStart / 4096, l.intstacksStart / 4096, l.bssStart / 4096 - 1;
      && l.dataEnd / 4096 == b && l.stacksStart == 4096 * b && l.intstacksStart == 4096 * c
      && c == b + 3 * harts && d == c + 4 * harts && 0 <= d <= VPN_TOP
  {
    LayoutPages(l, harts);
  }

  /** `kpage_init`: takes a page for the root and maps the kernel into it. A missing root page is a
      panic. Otherwise it succeeds exactly when there is a free page for the root and for each table that
      the mapped pages need; then the leaf entries are exactly those of `KernelFlags`, and every address has
      the permissions of its section. */
  method KpageInit(pool: Pool, l: Layout, harts: nat) returns (r: InitResult, ghost t: Tree)
    requires pool.Valid() && |pool.ram.pages| <= PPN_TOP && LaidOut(l, harts)
    modifies pool, pool.ram
    ensures pool.Valid()
    ensures old(pool.list) == [] <==> r == InitAbort
    ensures r.InitError? ==> r.error == VmError.OutOfPages
    ensures r.Root? <==> 1 + KernelTables(FlagSeq(l)) <= |old(pool.list)|
    ensures r.Root? ==>
      && Owned(pool, t) && r.base == 4096 * t.root
      && MappedBelow(pool.ram.pages, t, FlagSeq(l), l.dramEnd / 4096)
      && pool.list == old(pool.list)[1 + KernelTables(FlagSeq(l))..]
      && KernelSpace(pool.ram.pages, t.root, l)
    ensures old(pool.list) != [] ==>
      && Owned(pool, t) && TreePages(t) + Elems(pool.list) == Elems(old(pool.list))
      && SameOutside(old(pool.ram.pages), pool.ram.pages, Elems(old(pool.list)))
  {
    var page := pool.Palloc();
    if page.OutOfPages? {
      return InitAbort, Tree(0, map[], map[]);
    }
    ghost var root, m, list := old(pool.list)[0], pool.ram.pages, pool.list;
    ghost var t0 := Tree(root, map[], map[]);
    RootTaken(old(pool.ram.pages), old(pool.list), m);
    EmptyTree(m, root);
    var done;
    done, t := MapAll(pool, page.addr, l, harts, m, list, t0, t0, FlagSeq(l), TallySeq(FlagSeq(l)));
    r := if done == Done then Root(page.addr) else InitError(done.error);
    DropMore(old(pool.list), KernelTables(FlagSeq(l)));
    SpaceOf(pool.ram.pages, t, l, harts);
  }

  lemma DropMore(list: seq<nat>, n: nat)
    ensures 1 + n <= |list| ==> list[1..][n..] == list[1 + n..]
  {
  }

  lemma RootTaken(m: Mem, list: seq<nat>, m1: Mem)
    requires Sorted(list) && Linked(m, list) && list != [] && TakeStep(m, list, 1, m1, list[1..])
    ensures list[0] < |m1| && m1[list[0]] == ZeroPage() && list[0] !in list[1..]
    ensures TreePages(Tree(list[0], map[], map[])) == {list[0]}
    ensures Elems(list) == {list[0]} + Elems(list[1..])
  {
    assert list == [list[0]] + list[1..];
  }

  // ---- What the finished map means ----

  /** The finished table is an identity map of exactly the pages of `KernelFlags`. */
  lemma KernelIdentity(m: Mem, t: Tree, l: Layout, harts: nat, x: nat)
    requires TreeOk(m, t) && LaidOut(l, harts) && MappedBelow(m, t, FlagSeq(l), l.dramEnd / 4096)
    requires x < VA_TOP / 2
    ensures match KernelFlags(l, x / 4096)
      case None => Translate(m, t.root, x) == Fault
      case Some(flag) => Translate(m, t.root, x) == Mapped(x, WithValid(flag))
  {
    var v := x / 4096;
    LayoutPages(l, harts);
    LowPage(x);
    NothingAbove(l, harts, v);
    match KernelFlags(l, v)
    case None =>
      TranslateByLeaf(m, t, x);
    case Some(flag) =>
      PageTranslates(m, t, x, v, v, flag);
  }

  lemma NothingAbove(l: Layout, harts: nat, v: nat)
    requires LaidOut(l, harts)
    ensures v >= l.dramEnd / 4096 ==> KernelFlags(l, v) == None
    ensures KernelFlags(l, v).Some? ==> KernelFlags(l, v).value in {RW, RX, PTE_READ}
    ensures Usable(RW) && Usable(RX) && Usable(PTE_READ)
  {
    LayoutPages(l, harts);
  }

  /** No page is both writable and executable. */
  lemma WriteXorExecute(m: Mem, t: Tree, l: Layout, harts: nat, x: nat)
    requires TreeOk(m, t) && LaidOut(l, harts) && MappedBelow(m, t, FlagSeq(l), l.dramEnd / 4096)
    requires x < VA_TOP / 2 && Translate(m, t.root, x).Mapped?
    ensures var flags := Translate(m, t.root, x).flags; !(FlagSet(flags, PTE_WRITE) && FlagSet(flags, PTE_EXEC))
  {
    KernelIdentity(m, t, l, harts, x);
    NothingAbove(l, harts, x / 4096);
    FlagsSafe();
  }

  lemma FlagsSafe()
    ensures forall f :: f in {RW, RX, PTE_READ} ==>
      !(FlagSet(WithValid(f), PTE_WRITE) && FlagSet(WithValid(f), PTE_EXEC))
  {
  }

  // ---- What the sections may do ----

  /** Address `x` is mapped to itself: valid and readable, writable and executable as `w` and `e` say, and for
      the kernel only. The bits are those of the Privileged ISA. */
  predicate Access(r: Translation, x: nat, w: bool, e: bool) {
    && r.Mapped? && r.pa == x && r.flags % 2 == 1 && r.flags / 2 % 2 == 1
    && (r.flags / 4 % 2 == 1 <==> w) && (r.flags / 8 % 2 == 1 <==> e) && r.flags / 16 == 0
  }

  /** What each address of the lower half is for, section by section. */
  ghost predicate KernelAccess(l: Layout, x: nat, r: Translation) {
    if 0x1000_0000 <= x < 0x1000_1000 then Access(r, x, true, false)
    else if x < 0x8000_0000 then r == Fault
    else if x < l.textEnd then Access(r, x, false, true)
    else if x < l.rodataEnd then Access(r, x, false, false)
    else if x < l.dataEnd then Access(r, x, true, false)
    else if x < l.intstacksStart then
      if (x - l.stacksStart) % 0x3000 < 0x1000 then r == Fault else Access(r, x, true, false)
    else if x < l.bssStart - 0x1000 then
      if (x - l.intstacksStart) % 0x2000 < 0x1000 then r == Fault else Access(r, x, true, false)
    else if x < l.bssStart then r == Fault
    else if x < l.dramEnd then Access(r, x, true, false)
    else r == Fault
  }

  lemma FlagsMean(x: nat)
    ensures Access(Mapped(x, WithValid(RW)), x, true, false)
    ensures Access(Mapped(x, WithValid(RX)), x, false, true)
    ensures Access(Mapped(x, WithValid(PTE_READ)), x, false, false)
  {
    assert WithValid(RW) == 7 && WithValid(RX) == 11 && WithValid(PTE_READ) == 3;
  }

  /** A boundary between pages, for addresses and for pages. */
  lemma PageBelow(x: nat, e: nat)
    requires e % 4096 == 0
    ensures x < e <==> x / 4096 < e / 4096
  {
  }

  /** Page `y / 4096` is the first of its group of `n` pages. */
  lemma FirstOfGroup(y: nat, n: nat)
    requires n == 2 || n == 3
    ensures y / 4096 % n == 0 <==> y % (4096 * n) < 4096
  {
    var q, r := y / (4096 * n), y % (4096 * n);
    assert y == 4096 * n * q + r;
    DivUnique(y, 4096, n * q + r / 4096, r % 4096);
    DivUnique(n * q + r / 4096, n, q, r / 4096);
  }

  lemma OffsetPage(x: nat, s: nat)
    requires s % 4096 == 0 && s <= x
    ensures x / 4096 >= s / 4096 && (x - s) / 4096 == x / 4096 - s / 4096
  {
  }

  /** The flags of a page, by address. */
  function FlagsAt(l: Layout, x: nat): Option<nat> {
    if 0x1000_0000 <= x < 0x1000_1000 then Some(RW)
    else if x < 0x8000_0000 then None
    else if x < l.textEnd then Some(RX)
    else if x < l.rodataEnd then Some(PTE_READ)
    else if x < l.dataEnd then Some(RW)
    else if x < l.intstacksStart then if (x - l.stacksStart) % 0x3000 < 0x1000 then None else Some(RW)
    else if x < l.bssStart - 0x1000 then if (x - l.intstacksStart) % 0x2000 < 0x1000 then None else Some(RW)
    else if x < l.bssStart then None
    else if x < l.dramEnd then Some(RW)
    else None
  }

  lemma StackFlags(l: Layout, harts: nat, x: nat)
    requires LaidOut(l, harts) && l.dataEnd <= x < l.bssStart - 0x1000
    ensures KernelFlags(l, x / 4096) == FlagsAt(l, x)
  {
    LayoutPages(l, harts);
    PageBelow(x, l.dataEnd);
    PageBelow(x, l.intstacksStart);
    PageBelow(x, l.bssStart - 0x1000);
    if x < l.intstacksStart {
      OffsetPage(x, l.stacksStart);
      FirstOfGroup(x - l.stacksStart, 3);
    } else {
      OffsetPage(x, l.intstacksStart);
      FirstOfGroup(x - l.intstacksStart, 2);
    }
  }

  lemma SectionFlags(l: Layout, harts: nat, x: nat)
    requires LaidOut(l, harts)
    ensures KernelFlags(l, x / 4096) == FlagsAt(l, x)
  {
    LayoutPages(l, harts);
    PageBelow(x, 0x8000_0000);
    PageBelow(x, l.textEnd);
    PageBelow(x, l.rodataEnd);
    PageBelow(x, l.dataEnd);
    PageBelow(x, l.bssStart - 0x1000);
    PageBelow(x, l.bssStart);
    PageBelow(x, l.dramEnd);
    if l.dataEnd <= x < l.bssStart - 0x1000 {
      StackFlags(l, harts, x);
    }
  }

  /** The permissions of every address, by the bits of the Privileged ISA: the UART, data, stacks, bss and heap
      are read-write, text is read-execute and read-only data read-only, and everything else faults, the
      guard pages included. */
  lemma KernelPermissions(m: Mem, t: Tree, l: Layout, harts: nat, x: nat)
    requires TreeOk(m, t) && LaidOut(l, harts) && MappedBelow(m, t, FlagSeq(l), l.dramEnd / 4096)
    requires x < 0x40_0000_0000
    ensures KernelAccess(l, x, Translate(m, t.root, x))
  {
    KernelIdentity(m, t, l, harts, x);
    SectionFlags(l, harts, x);
    FlagsMean(x);
  }

  /** Every address of the lower half has the permissions of its section. */
  ghost predicate KernelSpace(m: Mem, root: nat, l: Layout) {
    forall x: nat :: x < 0x40_0000_0000 ==> KernelAccess(l, x, Translate(m, root, x))
  }

  lemma SpaceOf(m: Mem, t: Tree, l: Layout, harts: nat)
    ensures TreeOk(m, t) && LaidOut(l, harts) && MappedBelow(m, t, FlagSeq(l), l.dramEnd / 4096) ==>
      KernelSpace(m, t.root, l)
  {
    if TreeOk(m, t) && LaidOut(l, harts) && MappedBelow(m, t, FlagSeq(l), l.dramEnd / 4096) {
      forall x: nat | x < 0x40_0000_0000 ensures KernelAccess(l, x, Translate(m, t.root, x)) {
        KernelPermissions(m, t, l, harts, x);
      }
    }
  }

  // ---- The stacks ----

  /** The stack pointer that the entry code gives hart `h`: the end of the stacks less three pages a hart. */
  function EntryStack(l: Layout, h: nat): int {
    l.intstacksStart - 0x3000 * h
  }

  /** The machine-mode scratch stack of hart `h`, and the supervisor one two pages below it. */
  function EntryScratch(l: Layout, h: nat): int {
    l.bssStart - 0x1000 - 0x4000 * h
  }

  /** `top` is the end of `n` read-write pages above an unmapped page. */
  ghost predicate GuardedStack(m: Mem, root: nat, top: int, n: nat) {
    && top % 4096 == 0 && top >= 4096 * (n + 1)
    && (forall x: nat :: top - 4096 * n <= x < top ==> Access(Translate(m, root, x), x, true, false))
    && (forall x: nat :: top - 4096 * (n + 1) <= x < top - 4096 * n ==> Translate(m, root, x) == Fault)
  }

  /** An address in the group of pages number `k` of the stacks. */
  lemma StackByte(m: Mem, t: Tree, l: Layout, harts: nat, k: nat, x: nat)
    requires TreeOk(m, t) && LaidOut(l, harts) && MappedBelow(m, t, FlagSeq(l), l.dramEnd / 4096)
    requires k < harts && l.stacksStart + 0x3000 * k <= x < l.stacksStart + 0x3000 * (k + 1)
    ensures var r := Translate(m, t.root, x);
      if x < l.stacksStart + 0x3000 * k + 0x1000 then r == Fault else Access(r, x, true, false)
  {
    KernelPermissions(m, t, l, harts, x);
    DivUnique(x - l.stacksStart, 0x3000, k, x - l.stacksStart - 0x3000 * k);
  }

  /** An address in the group of pages number `k` of the interrupt stacks. */
  lemma IntStackByte(m: Mem, t: Tree, l: Layout, harts: nat, k: nat, x: nat)
    requires TreeOk(m, t) && LaidOut(l, harts) && MappedBelow(m, t, FlagSeq(l), l.dramEnd / 4096)
    requires k < 2 * harts && l.intstacksStart + 0x2000 * k <= x < l.intstacksStart + 0x2000 * (k + 1)
    ensures var r := Translate(m, t.root, x);
      if x < l.intstacksStart + 0x2000 * k + 0x1000 then r == Fault else Access(r, x, true, false)
  {
    KernelPermissions(m, t, l, harts, x);
    DivUnique(x - l.intstacksStart, 0x2000, k, x - l.intstacksStart - 0x2000 * k);
  }

  lemma StackGuarded(m: Mem, t: Tree, l: Layout, harts: nat, k: nat)
    requires TreeOk(m, t) && LaidOut(l, harts) && MappedBelow(m, t, FlagSeq(l), l.dramEnd / 4096) && k < harts
    ensures GuardedStack(m, t.root, l.stacksStart + 0x3000 * (k + 1), 2)
  {
    var base := l.stacksStart + 0x3000 * k;
    StackPages(l, harts);
    AlignedPages(base + 0x3000, l.stacksStart / 4096 + 3 * k + 3, 0);
    forall x: nat | base <= x < base + 0x3000
      ensures if x < base + 0x1000 then Translate(m, t.root, x) == Fault else Access(Translate(m, t.root, x), x, true, false)
    {
      StackByte(m, t, l, harts, k, x);
    }
  }

  lemma IntStackGuarded(m: Mem, t: Tree, l: Layout, harts: nat, k: nat)
    requires TreeOk(m, t) && LaidOut(l, harts) && MappedBelow(m, t, FlagSeq(l), l.dramEnd / 4096) && k < 2 * harts
    ensures GuardedStack(m, t.root, l.intstacksStart + 0x2000 * (k + 1), 1)
  {
    var base := l.intstacksStart + 0x2000 * k;
    StackPages(l, harts);
    AlignedPages(base + 0x2000, l.intstacksStart / 4096 + 2 * k + 2, 0);
    forall x: nat | base <= x < base + 0x2000
      ensures if x < base + 0x1000 then Translate(m, t.root, x) == Fault else Access(Translate(m, t.root, x), x, true, false)
    {
      IntStackByte(m, t, l, harts, k, x);
    }
  }

  lemma EntryPlaces(l: Layout, harts: nat, h: nat)
    requires LaidOut(l, harts) && h < harts
    ensures var k := harts - 1 - h;
      && EntryStack(l, h) == l.stacksStart + 0x3000 * (k + 1)
      && EntryScratch(l, h) == l.intstacksStart + 0x2000 * (2 * k + 2)
      && EntryScratch(l, h) - 0x2000 == l.intstacksStart + 0x2000 * (2 * k + 1)
  {
  }

  /** Every stack the entry code points a hart at is read-write, with an unmapped page below it. */
  lemma StacksGuarded(m: Mem, t: Tree, l: Layout, harts: nat, h: nat)
    requires TreeOk(m, t) && LaidOut(l, harts) && MappedBelow(m, t, FlagSeq(l), l.dramEnd / 4096)
    requires h < harts
    ensures GuardedStack(m, t.root, EntryStack(l, h), 2)
    ensures GuardedStack(m, t.root, EntryScratch(l, h), 1)
    ensures GuardedStack(m, t.root, EntryScratch(l, h) - 0x2000, 1)
  {
    var k := harts - 1 - h;
    EntryPlaces(l, harts, h);
    StackGuarded(m, t, l, harts, k);
    IntStackGuarded(m, t, l, harts, 2 * k + 1);
    IntStackGuarded(m, t, l, harts, 2 * k);
  }

  /** The bytes from `a` to `b` and from `c` to `d` have nothing in common. */
  predicate Separate(a: int, b: int, c: int, d: int) {
    b <= c || d <= a
  }

  /** The stacks of two harts share no byte, and neither do the stacks of one hart; all of them lie between the
      data and the bss section, with those of hart 0 at the top. */
  lemma StacksApart(l: Layout, harts: nat, g: nat, h: nat)
    requires LaidOut(l, harts) && g < harts && h < harts
    ensures g != h ==> Separate(EntryStack(l, g) - 0x2000, EntryStack(l, g), EntryStack(l, h) - 0x2000, EntryStack(l, h))
    ensures g != h ==>
      Separate(EntryScratch(l, g) - 0x3000, EntryScratch(l, g), EntryScratch(l, h) - 0x3000, EntryScratch(l, h))
    ensures Separate(EntryStack(l, g) - 0x2000, EntryStack(l, g), EntryScratch(l, h) - 0x3000, EntryScratch(l, h))
    ensures l.dataEnd <= EntryStack(l, g) - 0x2000 && EntryScratch(l, g) <= l.bssStart - 0x1000
    ensures EntryStack(l, 0) == l.stacksStart + 0x3000 * harts && EntryScratch(l, 0) == l.intstacksStart + 0x4000 * harts
  {
  }
}
