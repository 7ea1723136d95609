/** Whole runs of the general allocator, its clients and the other users of the page pool: every
    state of every run is safe, and a block keeps its bytes for as long as nobody writes to it or
    gives it back. The steps are the relations that the methods of `GeneralAlloc.Galloc` and of
    `PagePool.Pool` prove of themselves. */
module HeapRuns {
  import opened Memory
  import opened FreeList
  import opened Chunks
  import opened Headers
  import opened ZoneChain
  import opened SmallAlloc
  import opened PageTable
  import opened PageWalk
  import opened AddressSpace
  import opened HeapView
  import opened ClientMemory

  datatype HeapState = HeapState(mem: Mem, list: seq<nat>, zones: seq<nat>, chunks: seq<seq<Chunk>>,
                                 live: map<nat, Layout>, others: set<nat>)

  /** The pages of the pool are `[lo, hi)`, and the first zone is on the lowest of them. There are at most
      two zones, and the only chunk in use of a second one is its first. */
  ghost predicate HeapOk(s: HeapState, lo: nat, hi: nat) {
    && hi <= |s.mem| && Sorted(s.list) && Linked(s.mem, s.list)
    && 1 <= |s.zones| == |s.chunks| <= 2 && s.zones[0] == lo && (|s.zones| == 2 ==> FirstOnly(s.chunks[1]))
    && LiveOk(s.mem, s.zones, s.chunks, s.live) && Partition(s.list, s.zones, s.live, s.others, lo, hi)
  }

  /** The general allocator grants or refuses a block or takes one back, and a client writes inside a
      block; the page tables are extended, or a new one is made; another user of the page pool takes
      pages, gives pages back or writes into its own. */
  datatype HeapEvent =
    | Grant(addr: nat, layout: Layout) | Refuse(layout: Layout) | Return(addr: nat) | Write(addr: nat)
    | MapTable(table: Option<Tree>, grown: Tree)
    | OtherTake(n: nat) | OtherGive(p: nat, n: nat) | OtherWrite(pages: set<nat>)

  ghost function TablePages(t: Option<Tree>): set<nat> {
    if t.None? then {} else TreePages(t.value)
  }

  /** The sub-page allocator answers a request for `n` words with `r`. */
  ghost predicate SmallStep(s: HeapState, r: KallocResult, n: nat, s': HeapState) {
    && Sorted(s'.list) && Linked(s'.mem, s'.list)
    && Chain(s'.mem, s'.zones, s'.chunks) && Elems(s'.zones) !! Elems(s'.list)
    && Served(s.mem, s.list, s.zones, SmallBlocks(s.live), r, n,
              s'.mem, s'.list, s'.zones, Live(s'.zones, s'.chunks))
    && TailKept(s.zones, s.chunks, s'.zones, s'.chunks)
  }

  /** The block at `ptr` is the last one in use in a zone other than the first. */
  ghost predicate EmptiesIn(zones: seq<nat>, chunks: seq<seq<Chunk>>, ptr: nat)
    requires |chunks| == |zones|
  {
    exists i :: 0 < i < |zones| && zones[i] == PageNo(ptr) && Used(chunks[i]) == 1
  }

  /** The sub-page allocator takes back the chunk at `a`, of zone `i`, which stays in use. */
  ghost predicate SmallReturn(s: HeapState, a: nat, i: nat, s': HeapState)
    requires a in s.live
  {
    && s'.list == s.list && s'.zones == s.zones && i < |s.zones| && s.zones[i] == PageNo(a)
    && |s.chunks| == |s.zones| == |s'.chunks| && s'.chunks == s.chunks[i := s'.chunks[i]]
    && !EmptiesIn(s.zones, s.chunks, a)
    && s.zones[i] < |s.mem| == |s'.mem| && s'.mem == s.mem[s.zones[i] := s'.mem[s.zones[i]]]
    && FreedExactly(s.mem[s.zones[i]], NextZone(s.zones, i), s.chunks[i], BlockOf(a, s.live[a]).block,
             s'.mem[s.zones[i]], s'.chunks[i])
  }

  /** The tables of `t`, if any, become those of `t'`, with pages out of the pool. */
  ghost predicate TableStep(s: HeapState, t: Option<Tree>, t': Tree, s': HeapState) {
    && TablePages(t) <= s.others && TablePages(t) <= TreePages(t')
    && Sorted(s'.list) && Linked(s'.mem, s'.list) && TreeOk(s'.mem, t') && TreePages(t') !! Elems(s'.list)
    && Elems(s'.list) + TreePages(t') == Elems(s.list) + TablePages(t)
    && SameOutside(s.mem, s'.mem, TablePages(t) + Elems(s.list))
    && s' == s.(mem := s'.mem, list := s'.list, others := s.others + TreePages(t'))
  }

  ghost predicate HeapStep(s: HeapState, e: HeapEvent, s': HeapState) {
    match e
    case Grant(a, l) =>
      && l.size > 0 && l.align <= 4096 && s'.live == s.live[a := l] && s'.others == s.others
      && if IsSmall(l) then SmallStep(s, Ptr(a), Words(l.size), s')
         else
           && s.list != [] && a == 4096 * s.list[0] && s'.zones == s.zones && s'.chunks == s.chunks
           && Serves(s.list, NumPages(l)) && TakeStep(s.mem, s.list, NumPages(l), s'.mem, s'.list)
    case Refuse(l) =>
      && s'.live == s.live && s'.others == s.others
      && if IsSmall(l) then SmallStep(s, OOM, Words(l.size), s')
         else s' == s && (l.size == 0 || l.align > 4096 || !Serves(s.list, NumPages(l)))
    case Return(a) =>
      && a in s.live && s'.live == s.live - {a} && s'.others == s.others
      && if IsSmall(s.live[a]) then exists i: nat :: SmallReturn(s, a, i, s')
         else
           && s'.zones == s.zones && s'.chunks == s.chunks
           && GiveStep(s.mem, s.list, PageNo(a), NumPages(s.live[a]), s'.mem, s'.list)
    case Write(a) =>
      && a in s.live && WroteIn(s.mem, s'.mem, a, s.live[a])
      && s' == s.(mem := s'.mem)
    case MapTable(t, t') =>
      TableStep(s, t, t', s')
    case OtherTake(n) =>
      && Serves(s.list, n) && TakeStep(s.mem, s.list, n, s'.mem, s'.list)
      && s' == s.(mem := s'.mem, list := s'.list, others := s.others + Elems(Region(s.list[0], n)))
    case OtherGive(p, n) =>
      && Elems(Region(p, n)) <= s.others && GiveStep(s.mem, s.list, p, n, s'.mem, s'.list)
      && s' == s.(mem := s'.mem, list := s'.list, others := s.others - Elems(Region(p, n)))
    case OtherWrite(pages) =>
      && pages <= s.others && SameOutside(s.mem, s'.mem, pages)
      && s' == s.(mem := s'.mem)
  }

  ghost predicate HeapRun(states: seq<HeapState>, events: seq<HeapEvent>, lo: nat, hi: nat) {
    && |states| == |events| + 1 && HeapOk(states[0], lo, hi)
    && forall i :: 0 <= i < |events| ==> HeapStep(states[i], events[i], states[i + 1])
  }

  /** The blocks a step is not about. */
  ghost function Spared(live: map<nat, Layout>, e: HeapEvent): map<nat, Layout> {
    if e.Return? || e.Write? then live - {e.addr} else live
  }

  /** The pages of other users that a step is about. */
  ghost function Touched(e: HeapEvent): set<nat> {
    match e
    case MapTable(t, _) => TablePages(t)
    case OtherGive(p, n) => Elems(Region(p, n))
    case OtherWrite(pages) => pages
    case _ => {}
  }

  /** The pages a step may write to. */
  ghost function Reach(s: HeapState, e: HeapEvent): set<nat> {
    Elems(s.list) + Elems(s.zones) + BigPages(s.live) + Touched(e)
  }

  /** Every step keeps the whole system in order, and the words of every block it is not about. */
  lemma StepOk(s: HeapState, e: HeapEvent, s': HeapState, lo: nat, hi: nat)
    requires HeapOk(s, lo, hi) && HeapStep(s, e, s')
    ensures HeapOk(s', lo, hi) && ContentKept(s.mem, s'.mem, Spared(s.live, e))
    ensures SameOutside(s.mem, s'.mem, Reach(s, e))
    ensures e.Grant? ==> e.addr !in s.live
  {
    match e
    case Grant(a, l) => GrantOk(s, a, l, s', lo, hi);
    case Refuse(l) => RefuseOk(s, l, s', lo, hi);
    case Return(a) => ReturnOk(s, a, s', lo, hi);
    case Write(a) => WriteOk(s, a, s', lo, hi);
    case _ => OtherOk(s, e, s', lo, hi);
  }

  lemma GrantOk(s: HeapState, a: nat, l: Layout, s': HeapState, lo: nat, hi: nat)
    requires HeapOk(s, lo, hi) && HeapStep(s, Grant(a, l), s')
    ensures HeapOk(s', lo, hi) && ContentKept(s.mem, s'.mem, s.live) && a !in s.live
    ensures SameOutside(s.mem, s'.mem, Elems(s.list) + Elems(s.zones))
  {
    if IsSmall(l) {
      SmallServed(s.mem, s.list, s.zones, s.live, s.others, l, Ptr(a), s'.mem, s'.list, s'.zones, s'.chunks, lo, hi);
    } else {
      BigServed(s.mem, s.list, s.zones, s.chunks, s.live, s.others, l, s'.mem, lo, hi);
    }
  }

  lemma RefuseOk(s: HeapState, l: Layout, s': HeapState, lo: nat, hi: nat)
    requires HeapOk(s, lo, hi) && HeapStep(s, Refuse(l), s')
    ensures HeapOk(s', lo, hi) && ContentKept(s.mem, s'.mem, s.live)
    ensures SameOutside(s.mem, s'.mem, Elems(s.list) + Elems(s.zones))
  {
    if IsSmall(l) {
      SmallServed(s.mem, s.list, s.zones, s.live, s.others, l, OOM, s'.mem, s'.list, s'.zones, s'.chunks, lo, hi);
    }
  }

  lemma WriteOk(s: HeapState, a: nat, s': HeapState, lo: nat, hi: nat)
    requires HeapOk(s, lo, hi) && HeapStep(s, Write(a), s')
    ensures HeapOk(s', lo, hi) && ContentKept(s.mem, s'.mem, s.live - {a})
    ensures SameOutside(s.mem, s'.mem, Elems(s.zones) + BigPages(s.live))
  {
    WriteKeepsHeap(s.mem, s'.mem, s.zones, s.chunks, s.live, a);
    WriteKeepsFreeList(s.mem, s'.mem, s.list, s.zones, s.chunks, s.live, s.others, a, lo, hi);
    if IsSmall(s.live[a]) {
      var i := SmallExtent(s.mem, s.zones, s.chunks, s.live, a);
      assert s.zones[i] in Elems(s.zones);
    } else {
      assert PagesOf(a, s.live[a]) <= BigPages(s.live);
    }
  }

  lemma ReturnOk(s: HeapState, a: nat, s': HeapState, lo: nat, hi: nat)
    requires HeapOk(s, lo, hi) && HeapStep(s, Return(a), s')
    ensures HeapOk(s', lo, hi) && ContentKept(s.mem, s'.mem, s.live - {a})
    ensures SameOutside(s.mem, s'.mem, Elems(s.list) + Elems(s.zones) + BigPages(s.live))
  {
    if IsSmall(s.live[a]) {
      var i: nat :| SmallReturn(s, a, i, s');
      SmallReturned(s.mem, s.list, s.zones, s.chunks, s.live, s.others, a, i, s'.mem, s'.chunks[i], lo, hi);
      assert s.zones[i] in Elems(s.zones);
      LinkedFrame(s.mem, s'.mem, s.list, {s.zones[i]});
    } else {
      BigReturned(s.mem, s.list, s.zones, s.chunks, s.live, s.others, a, s'.mem, s'.list, lo, hi);
      assert PagesOf(a, s.live[a]) <= BigPages(s.live);
    }
  }

  /** The other users of the pool do not reach the heap. */
  lemma OtherOk(s: HeapState, e: HeapEvent, s': HeapState, lo: nat, hi: nat)
    requires HeapOk(s, lo, hi) && HeapStep(s, e, s')
    requires e.OtherTake? || e.OtherGive? || e.OtherWrite? || e.MapTable?
    ensures HeapOk(s', lo, hi) && ContentKept(s.mem, s'.mem, s.live)
    ensures SameOutside(s.mem, s'.mem, Elems(s.list) + Touched(e))
  {
    var touched := Elems(s.list) + Touched(e);
    match e {
      case OtherTake(n) => TakenPages(s.list, n);
      case OtherGive(p, n) =>
      case OtherWrite(pages) => LinkedFrame(s.mem, s'.mem, s.list, pages);
      case MapTable(t, t') =>
    }
    ChainFrame(s.mem, s'.mem, s.zones, s.chunks, touched);
    KeptOutside(s.mem, s'.mem, s.zones, s.chunks, touched);
  }

  // ---- The steps, one kind at a time ----

  /** What a served small request means for the live blocks and the pages. */
  lemma SmallServed(m: Mem, list: seq<nat>, zones: seq<nat>, live: map<nat, Layout>, others: set<nat>, layout: Layout,
                    r: KallocResult, m': Mem, list': seq<nat>, zones': seq<nat>, chunks': seq<seq<Chunk>>, lo: nat, hi: nat)
    requires IsSmall(layout) && layout.align <= 4096 && Placed(live) && Partition(list, zones, live, others, lo, hi)
    requires Chain(m', zones', chunks') && Elems(zones') !! Elems(list')
    requires Served(m, list, zones, SmallBlocks(live), r, Words(layout.size), m', list', zones', Live(zones', chunks'))
    ensures ContentKept(m, m', live)
    ensures r.Ptr? ==>
      && r.ptr !in live && LiveOk(m', zones', chunks', live[r.ptr := layout])
      && Partition(list', zones', live[r.ptr := layout], others, lo, hi)
    ensures !r.Ptr? ==> LiveOk(m', zones', chunks', live) && Partition(list', zones', live, others, lo, hi)
  {
    assert BigPages(live) !! Elems(zones');
    if r.Ptr? {
      AddSmallOk(m', zones', chunks', live, r.ptr, layout);
    }
  }

  /** A heap with one empty zone on the lowest page of an otherwise free pool. */
  lemma FreshHeap(m: Mem, b: nat, n: nat)
    requires n >= 1 && Chain(m, [b], [[Chunk(510, false)]])
    ensures LiveOk(m, [b], [[Chunk(510, false)]], map[])
    ensures Partition(Region(b, n)[1..], [b], map[], {}, b, b + n)
  {
    One(ZeroPage(), 1, Chunk(510, false));
    var list := Region(b, n);
    assert list == [list[0]] + list[1..];
    assert Elems([b]) == {b};
    assert BigPages(map[]) == {};
    assert SmallBlocks(map[]) == {};
  }

  /** What taking whole pages means for the live blocks and the pages. */
  lemma BigServed(m: Mem, list: seq<nat>, zones: seq<nat>, chunks: seq<seq<Chunk>>, live: map<nat, Layout>,
                  others: set<nat>, layout: Layout, m': Mem, lo: nat, hi: nat)
    requires LiveOk(m, zones, chunks, live) && Partition(list, zones, live, others, lo, hi) && Sorted(list)
    requires !IsSmall(layout) && layout.size > 0 && layout.align <= 4096
    requires NumPages(layout) <= |list| && TakeStep(m, list, NumPages(layout), m', list[NumPages(layout)..])
    ensures var a, n := 4096 * list[0], NumPages(layout);
      && a !in live && LiveOk(m', zones, chunks, live[a := layout])
      && Partition(list[n..], zones, live[a := layout], others, lo, hi)
      && ContentKept(m, m', live)
      && forall q :: q in PagesOf(a, layout) && q < |m'| ==> m'[q] == ZeroPage()
  {
    var a, n := 4096 * list[0], NumPages(layout);
    TakenPages(list, n);
    assert PageNo(a) == list[0];
    ChainFrame(m, m', zones, chunks, Elems(list));
    KeptOutside(m, m', zones, chunks, Elems(list));
    AddBigOk(m', zones, chunks, live, a, layout);
    RegionElems(list[0], n);
  }

  lemma TakenPages(list: seq<nat>, n: nat)
    requires Sorted(list) && 1 <= n && Contiguous(list, n)
    ensures Elems(list) == Elems(list[n..]) + Elems(Region(list[0], n))
    ensures Elems(list[n..]) !! Elems(Region(list[0], n))
  {
    assert list[..n] == Region(list[0], n);
    assert list == list[..n] + list[n..];
    RegionElems(list[0], n);
    forall i | 0 <= i < |list[n..]| ensures list[n..][i] !in Elems(Region(list[0], n)) {
      assert list[n..][i] == list[n + i] && list[n - 1] < list[n + i];
    }
  }

  /** What freeing a chunk means for the live blocks and the pages. */
  lemma SmallReturned(m: Mem, list: seq<nat>, zones: seq<nat>, chunks: seq<seq<Chunk>>, live: map<nat, Layout>,
                      others: set<nat>, ptr: nat, i: nat, m': Mem, cs: seq<Chunk>, lo: nat, hi: nat)
    requires LiveOk(m, zones, chunks, live) && Partition(list, zones, live, others, lo, hi)
    requires ptr in live && IsSmall(live[ptr]) && i < |zones| && zones[i] == PageNo(ptr)
    requires |m'| == |m| && zones[i] < |m| && m' == m[zones[i] := m'[zones[i]]]
    requires Freed(m[zones[i]], NextZone(zones, i), chunks[i], BlockOf(ptr, live[ptr]).block, m'[zones[i]], cs)
    ensures LiveOk(m', zones, chunks[i := cs], live - {ptr})
    ensures Partition(list, zones, live - {ptr}, others, lo, hi) && ContentKept(m, m', live - {ptr})
  {
    var b := BlockOf(ptr, live[ptr]).block;
    FreedLive(m, zones, chunks, i, b, m'[zones[i]], cs);
    ChainUpdate(m, zones, chunks, i, m'[zones[i]], cs);
    assert BlockOf(ptr, live[ptr]) == LiveBlock(zones[i], b);
    RemoveSmallOk(m', zones, chunks[i := cs], live, ptr);
    assert zones[i] in Elems(zones);
  }

  /** What giving whole pages back means for the live blocks and the pages. */
  lemma BigReturned(m: Mem, list: seq<nat>, zones: seq<nat>, chunks: seq<seq<Chunk>>, live: map<nat, Layout>,
                    others: set<nat>, a: nat, m': Mem, list': seq<nat>, lo: nat, hi: nat)
    requires LiveOk(m, zones, chunks, live) && Partition(list, zones, live, others, lo, hi)
    requires a in live && !IsSmall(live[a])
    requires GiveStep(m, list, PageNo(a), NumPages(live[a]), m', list')
    ensures LiveOk(m', zones, chunks, live - {a})
    ensures Partition(list', zones, live - {a}, others, lo, hi) && ContentKept(m, m', live - {a})
  {
    assert PagesOf(a, live[a]) <= BigPages(live);
    assert Elems(list') == Elems(list) + PagesOf(a, live[a]);
    ChainFrame(m, m', zones, chunks, Elems(list'));
    KeptOutside(m, m', zones, chunks, Elems(list'));
    RemoveBigOk(m', zones, chunks, live, a);
    SmallUnmoved(live, a);
  }

  lemma {:induction false} RunOk(states: seq<HeapState>, events: seq<HeapEvent>, lo: nat, hi: nat, k: nat)
    requires HeapRun(states, events, lo, hi) && k < |states|
    ensures HeapOk(states[k], lo, hi)
  {
    if k > 0 {
      RunOk(states, events, lo, hi, k - 1);
      StepOk(states[k - 1], events[k - 1], states[k], lo, hi);
    }
  }

  /** Whole-system safety: in every state of every run, two live blocks never overlap, each block lies
      in memory, is as long as its layout asks and less than a word or a page longer, and is aligned as its
      layout asks, every page
      of the pool is free, a zone, part of a live block or held by another user, the page tables among
      them, and never two of these, and there are at most two zones. */
  lemma RunSafe(states: seq<HeapState>, events: seq<HeapEvent>, lo: nat, hi: nat, k: nat, a: nat, b: nat)
    requires HeapRun(states, events, lo, hi) && k < |states|
    requires a in states[k].live && b in states[k].live
    requires IsPow2(states[k].live[a].align)
    ensures var s := states[k];
      && (a != b ==> a + Capacity(s.live[a]) <= b || b + Capacity(s.live[b]) <= a)
      && a % s.live[a].align == 0
      && s.live[a].size <= Capacity(s.live[a]) && a + Capacity(s.live[a]) <= 4096 * |s.mem|
      && Capacity(s.live[a]) < s.live[a].size + (if s.live[a].size <= 4080 && s.live[a].align <= 8 then 8 else 4096)
      && Partition(s.list, s.zones, s.live, s.others, lo, hi) && |s.zones| <= 2
  {
    RunOk(states, events, lo, hi, k);
    var s := states[k];
    if a != b {
      BlocksApart(s.mem, s.zones, s.chunks, s.live, a, b);
    }
    BlocksAligned(s.live, a);
    CapacityHolds(s.live[a]);
    BlockInMemory(s.mem, s.list, s.zones, s.chunks, s.live, s.others, a, lo, hi);
  }

  // ---- The second zone ----

  lemma {:induction false} NoneUsed(w: nat, cs: seq<Chunk>)
    requires Used(cs) == 0
    ensures Blocks(w, cs) == {}
    decreases |cs|
  {
    if cs != [] {
      NoneUsed(w + 1 + cs[0].words, cs[1..]);
    }
  }

  /** In every state in order, a block in the second zone is the only one there, and starts at word 2: to
      give it back always empties the zone, and the header that is then written late is word 1 of the
      page, where the next link of the free page is. */
  lemma SecondZoneFree(s: HeapState, a: nat, lo: nat, hi: nat)
    requires HeapOk(s, lo, hi) && a in s.live && IsSmall(s.live[a]) && PageNo(a) != lo
    ensures EmptiesIn(s.zones, s.chunks, a) && |s.zones| == 2 && PageNo(a) == s.zones[1] && Slot(a) == 2
  {
    var i := SmallExtent(s.mem, s.zones, s.chunks, s.live, a);
    assert i == 1;
    NoneUsed(2 + s.chunks[1][0].words, s.chunks[1][1..]);
  }

  // ---- Tables ----

  /** A step that is not about the pages of a table keeps the table and every translation by it. */
  lemma StepKeepsTable(s: HeapState, e: HeapEvent, s': HeapState, lo: nat, hi: nat, t: Tree, x: nat)
    requires HeapOk(s, lo, hi) && HeapStep(s, e, s')
    requires TreeOk(s.mem, t) && TreePages(t) <= s.others && TreePages(t) !! Touched(e)
    ensures TreeOk(s'.mem, t) && TreePages(t) <= s'.others
    ensures Translate(s'.mem, t.root, x) == Translate(s.mem, t.root, x)
  {
    StepOk(s, e, s', lo, hi);
    TreeFrame(s.mem, s'.mem, t, Reach(s, e));
    TranslateByLeaf(s.mem, t, x);
    TranslateByLeaf(s'.mem, t, x);
  }

  /** Over any stretch of a run without a step about its pages, a table translates every address alike,
      whatever is granted, returned, written or mapped elsewhere. */
  lemma {:induction false} RunKeepsTable(states: seq<HeapState>, events: seq<HeapEvent>, lo: nat, hi: nat,
                                         i: nat, j: nat, t: Tree, x: nat)
    requires HeapRun(states, events, lo, hi) && i <= j < |states|
    requires TreeOk(states[i].mem, t) && TreePages(t) <= states[i].others
    requires forall k :: i <= k < j ==> TreePages(t) !! Touched(events[k])
    ensures TreeOk(states[j].mem, t) && TreePages(t) <= states[j].others
    ensures Translate(states[j].mem, t.root, x) == Translate(states[i].mem, t.root, x)
    decreases j - i
  {
    if i < j {
      RunKeepsTable(states, events, lo, hi, i, j - 1, t, x);
      RunOk(states, events, lo, hi, j - 1);
      StepKeepsTable(states[j - 1], events[j - 1], states[j], lo, hi, t, x);
    }
  }

  // ---- Blocks ----

  /** A step that is not about block `a` leaves it live with the same bytes. */
  lemma StepKeepsBytes(s: HeapState, e: HeapEvent, s': HeapState, lo: nat, hi: nat, a: nat, x: nat)
    requires HeapOk(s, lo, hi) && HeapStep(s, e, s') && a in s.live
    requires e != Write(a) && e != Return(a) && a <= x < a + s.live[a].size
    ensures a in s'.live && s'.live[a] == s.live[a] && |s'.mem| == |s.mem|
    ensures x < 4096 * |s.mem| && ByteAt(s'.mem, x) == ByteAt(s.mem, x)
  {
    StepOk(s, e, s', lo, hi);
    BlockInMemory(s.mem, s.list, s.zones, s.chunks, s.live, s.others, a, lo, hi);
    CapacityHolds(s.live[a]);
    KeptBytes(s.mem, s'.mem, Spared(s.live, e), a, x);
  }

  /** Over any stretch of a run in which block `a` is neither written nor given back, every one of its
      bytes stays what it was, whatever is granted, coalesced, split or given back around it. */
  lemma {:induction false} RunKeepsBytes(states: seq<HeapState>, events: seq<HeapEvent>, lo: nat, hi: nat,
                                         i: nat, j: nat, a: nat, x: nat)
    requires HeapRun(states, events, lo, hi) && i <= j < |states| && a in states[i].live
    requires forall k :: i <= k < j ==> events[k] != Write(a) && events[k] != Return(a)
    requires a <= x < a + states[i].live[a].size
    ensures a in states[j].live && states[j].live[a] == states[i].live[a]
    ensures x < 4096 * |states[i].mem| == 4096 * |states[j].mem| && ByteAt(states[j].mem, x) == ByteAt(states[i].mem, x)
    decreases j - i
  {
    RunOk(states, events, lo, hi, i);
    if i < j {
      RunKeepsBytes(states, events, lo, hi, i, j - 1, a, x);
      RunOk(states, events, lo, hi, j - 1);
      StepKeepsBytes(states[j - 1], events[j - 1], states[j], lo, hi, a, x);
    } else {
      var s := states[i];
      BlockInMemory(s.mem, s.list, s.zones, s.chunks, s.live, s.others, a, lo, hi);
      CapacityHolds(s.live[a]);
    }
  }
}
