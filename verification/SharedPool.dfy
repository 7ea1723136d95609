/** The page tables and the general allocator on one pool: building tables is a step of the heap. */
module SharedPool {
  import opened Memory
  import opened FreeList
  import opened PagePool
  import opened PageTable
  import opened Mapping
  import opened HeapRuns
  import opened GeneralAlloc
  import KernelMap

  /** A tree with all the tables of another has all its pages. */
  lemma TablesGrow(t: Tree, t': Tree, s: nat, d: nat)
    requires TablesWithin(t, t', s, d)
    ensures TreePages(t) <= TreePages(t')
  {
    forall i | i in t.mid ensures t.mid[i] in TreePages(t') {
      assert t'.mid[i] == t.mid[i];
    }
    forall k | k in t.low ensures t.low[k] in TreePages(t') {
      assert t'.low[k] == t.low[k];
    }
  }

  /** What `page_map` does to memory, the free list and the tables is a step of the heap. */
  lemma MapIsStep(s: HeapState, t: Tree, va: nat, pa: nat, n: nat, flag: nat, r: MapResult, d: nat,
                  m': Mem, list': seq<nat>, t': Tree, lo: nat, hi: nat)
    ensures
      && HeapOk(s, lo, hi) && TreePages(t) <= s.others
      && (MapEnd(s.mem, s.list, t, va, pa, n, flag, r, d, m', list', t') || (t' == t && m' == s.mem && list' == s.list))
      && Sorted(list') && Linked(m', list') && TreeOk(m', t') && TreePages(t') !! Elems(list')
      ==>
      var s' := s.(mem := m', list := list', others := s.others + TreePages(t'));
      HeapStep(s, MapTable(Some(t), t'), s') && HeapOk(s', lo, hi)
  {
    var s' := s.(mem := m', list := list', others := s.others + TreePages(t'));
    if && HeapOk(s, lo, hi) && TreePages(t) <= s.others
       && (MapEnd(s.mem, s.list, t, va, pa, n, flag, r, d, m', list', t') || (t' == t && m' == s.mem && list' == s.list))
       && Sorted(list') && Linked(m', list') && TreeOk(m', t') && TreePages(t') !! Elems(list') {
      if t' != t {
        TablesGrow(t, t', va, d + 1);
      }
      assert HeapStep(s, MapTable(Some(t), t'), s');
      StepOk(s, MapTable(Some(t), t'), s', lo, hi);
    }
  }

  /** The heap of `g` once the pages of `t` are recorded as another user's. */
  ghost function StateWith(g: Galloc, t: Tree): HeapState
    reads g, g.small, g.pool, g.pool.ram
  {
    HeapState(g.pool.ram.pages, g.pool.list, g.small.zones, g.small.chunks, g.live, g.others + TreePages(t))
  }

  /** `page_map` on the pool of `g`, before the new tables are recorded. */
  method MapOnPool(g: Galloc, root: nat, va: nat, pa: nat, size: nat, flag: nat, ghost t: Tree)
    returns (r: MapResult, ghost t': Tree, ghost d: nat)
    requires g.Valid() && TreeOk(g.pool.ram.pages, t) && TreePages(t) <= g.others
    requires root == 4096 * t.root && flag < 1024
    modifies g.pool, g.pool.ram
    ensures g.small.Valid() && TreeOk(g.pool.ram.pages, t')
    ensures HeapStep(old(g.State()), MapTable(Some(t), t'), StateWith(g, t'))
    ensures HeapOk(StateWith(g, t'), PageNo(g.pool.bottom), PageNo(g.pool.top))
    ensures size > 0 ==>
      MapEnd(old(g.pool.ram.pages), old(g.pool.list), t, va / 4096, pa / 4096, PageSpan(va, size), flag,
             r, d, g.pool.ram.pages, g.pool.list, t')
  {
    ghost var s, lo, hi := g.State(), PageNo(g.pool.bottom), PageNo(g.pool.top);
    r, t', d := PageMap(g.pool, root, va, pa, size, flag, t);
    MapIsStep(s, t, va / 4096, pa / 4096, if size > 0 then PageSpan(va, size) else 0, flag, r, d,
              g.pool.ram.pages, g.pool.list, t', lo, hi);
  }

  /** `page_map` on a table whose pages come from the pool of the general allocator. The heap stays in
      order, whatever the result, and the table's pages are apart from every zone, block and free page. */
  method MapShared(g: Galloc, root: nat, va: nat, pa: nat, size: nat, flag: nat, ghost t: Tree)
    returns (r: MapResult, ghost t': Tree, ghost d: nat)
    requires g.Valid() && TreeOk(g.pool.ram.pages, t) && TreePages(t) <= g.others
    requires root == 4096 * t.root && flag < 1024
    modifies g, g.pool, g.pool.ram
    ensures g.Valid() && TreeOk(g.pool.ram.pages, t') && TreePages(t') <= g.others
    ensures HeapStep(old(g.State()), MapTable(Some(t), t'), g.State())
    ensures size > 0 ==>
      MapEnd(old(g.pool.ram.pages), old(g.pool.list), t, va / 4096, pa / 4096, PageSpan(va, size), flag,
             r, d, g.pool.ram.pages, g.pool.list, t')
  {
    r, t', d := MapOnPool(g, root, va, pa, size, flag, t);
    ghost var s' := StateWith(g, t');
    g.others := g.others + TreePages(t');
    assert g.State() == s';
  }

  /** `kpage_init` on the pool of the general allocator. */
  method InitShared(g: Galloc, l: KernelMap.Layout, harts: nat) returns (r: KernelMap.InitResult, ghost t: Tree)
    requires g.Valid() && |g.pool.ram.pages| <= PPN_TOP && KernelMap.LaidOut(l, harts) && g.pool.list != []
    modifies g, g.pool, g.pool.ram
    ensures g.Valid() && TreeOk(g.pool.ram.pages, t) && TreePages(t) <= g.others
    ensures HeapStep(old(g.State()), MapTable(None, t), g.State())
    ensures r.Root? ==>
      r.base == 4096 * t.root && KernelMap.MappedBelow(g.pool.ram.pages, t, KernelMap.FlagSeq(l), l.dramEnd / 4096)
  {
    ghost var s, lo, hi := g.State(), PageNo(g.pool.bottom), PageNo(g.pool.top);
    r, t := KernelMap.KpageInit(g.pool, l, harts);
    g.others := g.others + TreePages(t);
    StepOk(s, MapTable(None, t), g.State(), lo, hi);
  }
}
