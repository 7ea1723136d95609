/** `page_map` over a range of pages, and what the hardware makes of the result. */
module Mapping {
  import opened Bits
  import opened Memory
  import opened FreeList
  import opened PagePool
  import opened PageTable
  import opened PageWalk

  /** `Abort`: a checked subtraction or an assertion of the source fails. */
  datatype MapResult = Done | Error(error: VmError) | Abort

  /** The flags with VALID set. */
  function WithValid(flag: nat): (r: nat)
    ensures r % 2 == 1 && r / 2 == flag / 2
  {
    if flag % 2 == 1 then flag else flag + 1
  }

  /** `flag | PTE_VALID` */
  function LeafFlags(flag: nat): (r: nat)
    ensures r == WithValid(flag)
    ensures flag < 1024 ==> r < 1024
  {
    OneBit(flag, 0);
    Or(flag, PTE_VALID)
  }

  function LeafPte(page: nat, flag: nat): nat {
    1024 * page + WithValid(flag)
  }

  // ---- What a mapping costs ----

  /** The region of `size` pages that page `v` lies in. */
  function RegionNo(v: nat, size: nat): nat
    requires size >= 1
  {
    v / size
  }

  /** The regions of `size` pages that the `d` pages from `s` on reach. */
  ghost function Regions(s: nat, d: nat, size: nat): set<nat>
    requires size >= 1
  {
    if d == 0 then {} else Regions(s, d - 1, size) + {RegionNo(s + d - 1, size)}
  }

  /** How many of the regions that the `d` pages from `s` on reach are not in `keys`, counted page by page. */
  ghost function NewRegions(keys: set<nat>, s: nat, d: nat, size: nat): nat
    requires size >= 1
  {
    if d == 0 then 0
    else NewRegions(keys, s, d - 1, size) + if RegionNo(s + d - 1, size) in keys + Regions(s, d - 1, size) then 0 else 1
  }

  /** The tables that the `d` pages from `s` on need: one for each 1 GiB and each 2 MiB region they
      reach that has none. */
  ghost function Cost(t: Tree, s: nat, d: nat): nat {
    NewRegions(t.mid.Keys, s, d, 262144) + NewRegions(t.low.Keys, s, d, 512)
  }

  lemma {:induction false} NewRegionsCount(keys: set<nat>, s: nat, d: nat, size: nat)
    requires size >= 1
    ensures NewRegions(keys, s, d, size) == |Regions(s, d, size) - keys|
  {
    if d > 0 {
      var r, k := Regions(s, d - 1, size), RegionNo(s + d - 1, size);
      NewRegionsCount(keys, s, d - 1, size);
      AddRegion(r, keys, k);
      assert Regions(s, d, size) == r + {k};
    }
  }

  lemma AddRegion(r: set<nat>, keys: set<nat>, k: nat)
    ensures |r + {k} - keys| == |r - keys| + if k in keys + r then 0 else 1
  {
    if k in keys + r {
      assert r + {k} - keys == r - keys;
    } else {
      assert r + {k} - keys == (r - keys) + {k};
    }
  }

  lemma NextRegion(v: nat, size: nat)
    requires size == 512 || size == 262144
    ensures RegionNo(v, size) <= RegionNo(v + 1, size) <= RegionNo(v, size) + 1
  {
  }

  lemma RegionGrows(a: nat, b: nat, size: nat)
    requires (size == 512 || size == 262144) && a <= b
    ensures RegionNo(a, size) <= RegionNo(b, size)
  {
  }

  /** The regions reached by consecutive pages are consecutive. */
  lemma {:induction false} RegionsBetween(s: nat, d: nat, size: nat, k: nat)
    requires size == 512 || size == 262144
    ensures k in Regions(s, d, size) <==> d > 0 && RegionNo(s, size) <= k <= RegionNo(s + d - 1, size)
  {
    if d > 1 {
      RegionsBetween(s, d - 1, size, k);
      NextRegion(s + d - 2, size);
      RegionGrows(s, s + d - 2, size);
    } else if d == 1 {
      assert Regions(s, 0, size) == {};
    }
  }

  // ---- page_map ----

  /** `f'` has the entries of `f`. */
  ghost predicate Agrees(f: map<nat, nat>, f': map<nat, nat>) {
    forall i :: i in f ==> i in f' && f'[i] == f[i]
  }

  /** `t'` has the tables of `t`, and besides them only tables for the `d` pages from `s` on. */
  ghost predicate TablesWithin(t: Tree, t': Tree, s: nat, d: nat) {
    && t'.root == t.root && Agrees(t.mid, t'.mid) && Agrees(t.low, t'.low)
    && t'.mid.Keys <= t.mid.Keys + Regions(s, d, 262144) && t'.low.Keys <= t.low.Keys + Regions(s, d, 512)
  }

  /** ... and it has all the tables that those pages need. */
  ghost predicate TablesFor(t: Tree, t': Tree, s: nat, d: nat) {
    && t'.root == t.root && Agrees(t.mid, t'.mid) && Agrees(t.low, t'.low)
    && t'.mid.Keys == t.mid.Keys + Regions(s, d, 262144) && t'.low.Keys == t.low.Keys + Regions(s, d, 512)
  }

  lemma TablesStep(t: Tree, t1: Tree, t2: Tree, s: nat, d: nat)
    requires TablesFor(t, t1, s, d) && Extends(t1, t2, s + d)
    ensures TablesWithin(t, t2, s, d + 1)
    ensures (s + d) / 512 in t2.low && (s + d) / 262144 in t2.mid ==> TablesFor(t, t2, s, d + 1)
  {
  }

  /** The tables a walk has to make for the next page are the ones it adds to the cost. */
  lemma MissingStep(t: Tree, t1: Tree, s: nat, d: nat)
    requires TablesFor(t, t1, s, d)
    ensures Cost(t, s, d + 1) == Cost(t, s, d) + MissingAbove(t1, 0, s + d)
  {
  }

  /** The first `d` pages from `s` on are mapped to the pages from `q` on, and every other leaf
      entry is as it was. */
  ghost predicate RangeMapped(m: Mem, t: Tree, s: nat, q: nat, d: nat, flag: nat, m': Mem, t': Tree)
    requires InMemory(m, t) && InMemory(m', t')
  {
    && (forall v: nat :: Leaf(m', t', v) == if s <= v < s + d then LeafPte(q + (v - s), flag) else Leaf(m, t, v))
    && (forall v: nat :: s <= v < s + d ==> !ValidPte(Leaf(m, t, v)))
  }

  /** What the first `d` pages have done: leaf entries mapped for them and unchanged elsewhere, and
      every page still accounted for. */
  ghost predicate Kept(m: Mem, list: seq<nat>, t: Tree, s: nat, q: nat, d: nat, flag: nat,
                       m': Mem, list': seq<nat>, t': Tree)
  {
    && InMemory(m, t) && InMemory(m', t') && RangeMapped(m, t, s, q, d, flag, m', t')
    && Footprint(m, list, t, m', list', t')
  }

  /** Tables come out of the pool, and nothing but tables and free pages is written. */
  ghost predicate Footprint(m: Mem, list: seq<nat>, t: Tree, m': Mem, list': seq<nat>, t': Tree) {
    Conserved(list, t, list', t') && SameOutside(m, m', TreePages(t) + Elems(list))
  }

  lemma FootprintTrans(m: Mem, list: seq<nat>, t: Tree, m1: Mem, list1: seq<nat>, t1: Tree,
                       m2: Mem, list2: seq<nat>, t2: Tree)
    ensures Footprint(m, list, t, m1, list1, t1) && Footprint(m1, list1, t1, m2, list2, t2) ==>
      Footprint(m, list, t, m2, list2, t2)
  {
    if Footprint(m, list, t, m1, list1, t1) && Footprint(m1, list1, t1, m2, list2, t2) {
      assert TreePages(t1) + Elems(list1) == TreePages(t) + Elems(list);
    }
  }

  /** Exactly the tables for the first `d` pages have been made, and the pool has paid for them. */
  ghost predicate Paid(list: seq<nat>, t: Tree, s: nat, d: nat, list': seq<nat>, t': Tree) {
    TablesFor(t, t', s, d) && Cost(t, s, d) <= |list| && list' == list[Cost(t, s, d)..]
  }

  // ---- One round of the loop ----

  /** What a round for page `v` does to the leaf entries: its own becomes `pte` unless it is valid
      already or the round fails before, and every other one is kept. */
  ghost predicate RoundLeaves(m: Mem, list: seq<nat>, t: Tree, v: nat, pte: nat, r: MapResult,
                              m': Mem, list': seq<nat>, t': Tree)
  {
    && InMemory(m, t) && InMemory(m', t') && Footprint(m, list, t, m', list', t')
    && (r == Done ==>
          && !ValidPte(Leaf(m, t, v))
          && (forall u: nat :: Leaf(m', t', u) == if u == v then pte else Leaf(m, t, u)))
    && (r != Done ==> SameLeaves(m, t, m', t'))
    && (r == Error(PallocFail) ==> ValidPte(Leaf(m, t, v)))
  }

  /** What it does to the tables and the free list: the missing tables are made, or the free list is
      too short for them. */
  ghost predicate RoundTables(list: seq<nat>, t: Tree, v: nat, r: MapResult, list': seq<nat>, t': Tree) {
    && Extends(t, t', v)
    && (match r
        case Done =>
          && v / 512 in t'.low && v / 262144 in t'.mid
          && MissingAbove(t, 0, v) <= |list| && list' == list[MissingAbove(t, 0, v)..]
        case Error(OutOfPages) => MissingAbove(t, 0, v) > |list| && list' == []
        case _ => t' == t && list' == list)
  }

  /** The leaf entry is filled in unless it is already valid. */
  method EnterLeaf(pool: Pool, pteAddr: nat, phys: nat, flag: nat, ghost v: nat, ghost t: Tree) returns (r: MapResult)
    requires Owned(pool, t) && flag < 1024
    requires v / 512 in t.low && pteAddr == 4096 * t.low[v / 512] + 8 * (v % 512)
    modifies pool.ram
    ensures Owned(pool, t) && SameOutside(old(pool.ram.pages), pool.ram.pages, TreePages(t))
    ensures if ValidPte(Leaf(old(pool.ram.pages), t, v)) then
        r == Error(PallocFail) && pool.ram.pages == old(pool.ram.pages)
      else
        && r == Done
        && forall u: nat :: Leaf(pool.ram.pages, t, u) ==
             if u == v then LeafPte(phys / 4096, flag) else Leaf(old(pool.ram.pages), t, u)
  {
    ghost var a, m := t.low[v / 512], pool.ram.pages;
    Locate(a, v % 512);
    var pte := pool.ram.Load(pteAddr);
    if IsValid(pte) {
      return Error(PallocFail);
    }
    pool.ram.Store(pteAddr, PteSetFlag(PhyToPte(phys), LeafFlags(flag)));
    SetLeaf(m, t, v, LeafPte(phys / 4096, flag));
    assert a in TreePages(t);
    LinkedFrame(m, pool.ram.pages, pool.list, {a});
    r := Done;
  }

  /** One round of the loop of `page_map`. */
  method MapRound(pool: Pool, root: nat, start: nat, phys: nat, flag: nat, ghost v: nat, ghost t: Tree)
    returns (r: MapResult, ghost t': Tree)
    requires Owned(pool, t) && root == 4096 * t.root && flag < 1024 && start == 4096 * v
    modifies pool, pool.ram
    ensures Owned(pool, t')
    ensures r == Abort <==> start >= VA_TOP
    ensures RoundLeaves(old(pool.ram.pages), old(pool.list), t, v, LeafPte(phys / 4096, flag), r,
                        pool.ram.pages, pool.list, t')
    ensures RoundTables(old(pool.list), t, v, r, pool.list, t')
  {
    var entry;
    entry, t' := Walk(pool, root, start, true, t, v);
    match entry {
      case BadAddress => r := Abort;
      case Failed(e) => r := Error(e);
      case Found(pteAddr) =>
        r := EnterLeaf(pool, pteAddr, phys, flag, v, t');
        RoundTablesFor(old(pool.ram.pages), t, pool.ram.pages, t', v);
    }
  }

  /** A page whose leaf entry is valid has its tables already, and a walk to it makes none. */
  lemma RoundTablesFor(m: Mem, t: Tree, m': Mem, t': Tree, v: nat)
    requires InMemory(m, t) && InMemory(m', t')
    ensures v / 512 in t'.low ==> v / 262144 in t'.mid
    ensures ValidPte(Leaf(m, t, v)) && Extends(t, t', v) ==> t' == t && MissingAbove(t, 0, v) == 0
  {
    assert v / 512 / 512 == v / 262144;
    if ValidPte(Leaf(m, t, v)) && Extends(t, t', v) {
      assert v / 512 in t.low;
      assert t'.mid.Keys == t.mid.Keys && t'.low.Keys == t.low.Keys;
      assert t'.mid == t.mid && t'.low == t.low;
    }
  }

  // ---- The whole loop ----

  lemma RoundMaps(m: Mem, t: Tree, s: nat, q: nat, d: nat, flag: nat, m1: Mem, t1: Tree, m2: Mem, t2: Tree)
    requires InMemory(m, t) && InMemory(m1, t1) && InMemory(m2, t2) && RangeMapped(m, t, s, q, d, flag, m1, t1)
    ensures SameLeaves(m1, t1, m2, t2) ==> RangeMapped(m, t, s, q, d, flag, m2, t2)
    ensures
      && !ValidPte(Leaf(m1, t1, s + d))
      && (forall u: nat :: Leaf(m2, t2, u) == if u == s + d then LeafPte(q + d, flag) else Leaf(m1, t1, u))
      ==> RangeMapped(m, t, s, q, d + 1, flag, m2, t2)
  {
    assert Leaf(m1, t1, s + d) == Leaf(m, t, s + d);
  }

  lemma RoundKeeps(m: Mem, list: seq<nat>, t: Tree, s: nat, q: nat, d: nat, flag: nat, m1: Mem, list1: seq<nat>, t1: Tree,
                   r: MapResult, m2: Mem, list2: seq<nat>, t2: Tree)
    requires Kept(m, list, t, s, q, d, flag, m1, list1, t1)
    requires RoundLeaves(m1, list1, t1, s + d, LeafPte(q + d, flag), r, m2, list2, t2)
    ensures Kept(m, list, t, s, q, if r == Done then d + 1 else d, flag, m2, list2, t2)
    ensures r == Error(PallocFail) ==> ValidPte(Leaf(m, t, s + d))
  {
    FootprintTrans(m, list, t, m1, list1, t1, m2, list2, t2);
    RoundMaps(m, t, s, q, d, flag, m1, t1, m2, t2);
    assert Leaf(m1, t1, s + d) == Leaf(m, t, s + d);
  }

  lemma RoundPays(list: seq<nat>, t: Tree, s: nat, d: nat, list1: seq<nat>, t1: Tree, r: MapResult,
                  list2: seq<nat>, t2: Tree)
    requires Paid(list, t, s, d, list1, t1) && RoundTables(list1, t1, s + d, r, list2, t2)
    ensures TablesWithin(t, t2, s, d + 1)
    ensures r == Done ==> Paid(list, t, s, d + 1, list2, t2)
    ensures r == Error(VmError.OutOfPages) ==> Cost(t, s, d + 1) > |list| && list2 == []
    ensures r == Abort || r == Error(PallocFail) ==> Paid(list, t, s, d, list2, t2)
  {
    MissingStep(t, t1, s, d);
    TablesStep(t, t1, t2, s, d);
    if r == Done {
      assert list[Cost(t, s, d)..][MissingAbove(t1, 0, s + d)..] == list[Cost(t, s, d + 1)..];
    }
  }

  /** How `page_map` ends, for `n` pages from virtual page `s` to physical page `q` on, of which the
      first `d` are mapped. */
  ghost predicate MapEnd(m: Mem, list: seq<nat>, t: Tree, s: nat, q: nat, n: nat, flag: nat,
                         r: MapResult, d: nat, m': Mem, list': seq<nat>, t': Tree)
  {
    && d <= n && (r == Done <==> d == n)
    && Kept(m, list, t, s, q, d, flag, m', list', t') && TablesWithin(t, t', s, d + 1)
    && (match r
        case Error(OutOfPages) => list' == [] && Cost(t, s, d + 1) > |list|
        case Error(PallocFail) => ValidPte(Leaf(m, t, s + d)) && Paid(list, t, s, d, list', t')
        case Abort => s + d >= VPN_TOP && Paid(list, t, s, d, list', t')
        case Done => Paid(list, t, s, d, list', t'))
  }

  /** One round more: the leaf entries. */
  lemma KeptAfter(m: Mem, list: seq<nat>, t: Tree, s: nat, q: nat, d: nat, flag: nat, m1: Mem, list1: seq<nat>, t1: Tree,
                  pte: nat, r: MapResult, m2: Mem, list2: seq<nat>, t2: Tree)
    ensures
      && Kept(m, list, t, s, q, d, flag, m1, list1, t1) && pte == LeafPte(q + d, flag)
      && RoundLeaves(m1, list1, t1, s + d, pte, r, m2, list2, t2)
      ==>
        && Kept(m, list, t, s, q, if r == Done then d + 1 else d, flag, m2, list2, t2)
        && (r == Error(PallocFail) ==> ValidPte(Leaf(m, t, s + d)))
  {
    if && Kept(m, list, t, s, q, d, flag, m1, list1, t1) && pte == LeafPte(q + d, flag)
       && RoundLeaves(m1, list1, t1, s + d, pte, r, m2, list2, t2)
    {
      RoundKeeps(m, list, t, s, q, d, flag, m1, list1, t1, r, m2, list2, t2);
    }
  }

  /** One round more: the tables and the free list. */
  lemma PaidAfter(list: seq<nat>, t: Tree, s: nat, d: nat, list1: seq<nat>, t1: Tree, r: MapResult,
                  list2: seq<nat>, t2: Tree)
    ensures
      Paid(list, t, s, d, list1, t1) && RoundTables(list1, t1, s + d, r, list2, t2)
      ==>
        && TablesWithin(t, t2, s, d + 1)
        && (if r == Done then Paid(list, t, s, d + 1, list2, t2)
            else if r == Error(VmError.OutOfPages) then Cost(t, s, d + 1) > |list| && list2 == []
            else Paid(list, t, s, d, list2, t2))
  {
    if Paid(list, t, s, d, list1, t1) && RoundTables(list1, t1, s + d, r, list2, t2) {
      RoundPays(list, t, s, d, list1, t1, r, list2, t2);
    }
  }

  /** What a round does to the whole loop. */
  lemma RoundEnds(m: Mem, list: seq<nat>, t: Tree, s: nat, q: nat, d: nat, n: nat, flag: nat, m1: Mem, list1: seq<nat>, t1: Tree,
                  pte: nat, r: MapResult, m2: Mem, list2: seq<nat>, t2: Tree)
    ensures
      && Kept(m, list, t, s, q, d, flag, m1, list1, t1) && Paid(list, t, s, d, list1, t1) && d < n
      && pte == LeafPte(q + d, flag) && RoundLeaves(m1, list1, t1, s + d, pte, r, m2, list2, t2)
      && RoundTables(list1, t1, s + d, r, list2, t2) && (r == Abort <==> s + d >= VPN_TOP)
      ==>
      if r == Done then Kept(m, list, t, s, q, d + 1, flag, m2, list2, t2) && Paid(list, t, s, d + 1, list2, t2)
      else MapEnd(m, list, t, s, q, n, flag, r, d, m2, list2, t2)
  {
    KeptAfter(m, list, t, s, q, d, flag, m1, list1, t1, pte, r, m2, list2, t2);
    PaidAfter(list, t, s, d, list1, t1, r, list2, t2);
  }

  /** One round with the state of the whole loop. */
  method MapStep(pool: Pool, root: nat, start: nat, phys: nat, flag: nat, ghost m: Mem, ghost list: seq<nat>, ghost t: Tree,
                 ghost s: nat, ghost q: nat, ghost n: nat, ghost d: nat, ghost t1: Tree)
    returns (r: MapResult, ghost t': Tree)
    requires Owned(pool, t1) && root == 4096 * t1.root && flag < 1024
    requires start == 4096 * (s + d) && phys / 4096 == q + d && d < n
    requires Kept(m, list, t, s, q, d, flag, pool.ram.pages, pool.list, t1) && Paid(list, t, s, d, pool.list, t1)
    modifies pool, pool.ram
    ensures Owned(pool, t') && t'.root == t1.root
    ensures r == Done ==>
      Kept(m, list, t, s, q, d + 1, flag, pool.ram.pages, pool.list, t') && Paid(list, t, s, d + 1, pool.list, t')
    ensures r != Done ==> MapEnd(m, list, t, s, q, n, flag, r, d, pool.ram.pages, pool.list, t')
  {
    ghost var m1, list1 := pool.ram.pages, pool.list;
    r, t' := MapRound(pool, root, start, phys, flag, s + d, t1);
    RoundEnds(m, list, t, s, q, d, n, flag, m1, list1, t1, LeafPte(phys / 4096, flag), r, pool.ram.pages, pool.list, t');
  }

  /** The loop of `page_map`, from page-aligned `first` through `end`. */
  method MapLoop(pool: Pool, root: nat, first: nat, end: nat, pa: nat, flag: nat, ghost t: Tree, ghost s: nat, ghost n: nat)
    returns (r: MapResult, ghost t': Tree, ghost d: nat)
    requires Owned(pool, t) && root == 4096 * t.root && flag < 1024
    requires first == 4096 * s && end == 4096 * (s + n) - 4096 && n >= 1
    modifies pool, pool.ram
    ensures Owned(pool, t')
    ensures MapEnd(old(pool.ram.pages), old(pool.list), t, s, pa / 4096, n, flag, r, d, pool.ram.pages, pool.list, t')
  {
    ghost var m, list, q := pool.ram.pages, pool.list, pa / 4096;
    var start, phys := first, pa;
    t', d := t, 0;
    while start <= end
      invariant 0 <= d <= n && start == 4096 * (s + d) && phys == pa + 4096 * d && t'.root == t.root
      invariant Owned(pool, t') && Kept(m, list, t, s, q, d, flag, pool.ram.pages, pool.list, t')
      invariant Paid(list, t, s, d, pool.list, t')
      decreases n - d
    {
      r, t' := MapStep(pool, root, start, phys, flag, m, list, t, s, q, n, d, t');
      if r != Done {
        return;
      }
      d := d + 1;
      start := start + 4096;
      phys := phys + 4096;
    }
    TablesWider(t, t', s, d);
    r := Done;
  }

  lemma TablesWider(t: Tree, t': Tree, s: nat, d: nat)
    requires TablesFor(t, t', s, d)
    ensures TablesWithin(t, t', s, d + 1)
  {
  }

  /** `page_map`: maps the pages that `va`, ..., `va + size - 1` lie in to the pages from `pa` on.
      `d` is the number of pages mapped. */
  method PageMap(pool: Pool, root: nat, va: nat, pa: nat, size: nat, flag: nat, ghost t: Tree)
    returns (r: MapResult, ghost t': Tree, ghost d: nat)
    requires Owned(pool, t) && root == 4096 * t.root && flag < 1024
    modifies pool, pool.ram
    ensures Owned(pool, t')
    ensures size == 0 ==> r == Abort && t' == t && pool.list == old(pool.list) && pool.ram.pages == old(pool.ram.pages)
    ensures size > 0 ==>
      MapEnd(old(pool.ram.pages), old(pool.list), t, va / 4096, pa / 4096, PageSpan(va, size), flag,
             r, d, pool.ram.pages, pool.list, t')
  {
    if size == 0 {
      return Abort, t, 0;
    }
    var start := PageAlignDown(va);
    var end := PageAlignDown(va + (size - 1));
    SpanBounds(va, size);
    r, t', d := MapLoop(pool, root, start, end, pa, flag, t, va / 4096, PageSpan(va, size));
  }

  /** The number of pages that `size` bytes from `va` on lie in. */
  function PageSpan(va: nat, size: nat): (n: nat)
    requires size >= 1
    ensures n >= 1
  {
    (va + size - 1) / 4096 + 1 - va / 4096
  }

  lemma SpanBounds(va: nat, size: nat)
    requires size >= 1
    ensures PageAlignDown(va) == 4096 * (va / 4096)
    ensures PageAlignDown(va + (size - 1)) == 4096 * (va / 4096 + PageSpan(va, size)) - 4096
  {
  }
}
