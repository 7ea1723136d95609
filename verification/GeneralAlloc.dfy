/** The general allocator: routes a layout to the page pool or to the sub-page allocator. */
module GeneralAlloc {
  import opened Bits
  import opened Memory
  import opened FreeList
  import opened PagePool
  import opened Chunks
  import opened Headers
  import opened Zones
  import opened ZoneChain
  import opened ZoneRelease
  import opened SmallAlloc
  import opened HeapView
  import opened ClientMemory
  import opened HeapRuns

  /** `Panicked` covers the explicit panics; `NoEnd` passes on a page allocation without a regular end,
      and `Corrupted` a small allocation that has overrun the first zone. */
  datatype GallocResult = Granted(addr: nat) | Panicked | NoEnd | Corrupted

  class Galloc {
    const pool: Pool
    const small: Kalloc
    ghost var live: map<nat, Layout>
    ghost var others: set<nat>

    ghost predicate Valid()
      reads this, small, pool, pool.ram
    {
      && small.pool == pool && small.Valid() && small.head == pool.bottom
      && HeapOk(State(), PageNo(pool.bottom), PageNo(pool.top))
    }

    ghost function State(): HeapState
      reads this, small, pool, pool.ram
    {
      HeapState(pool.ram.pages, pool.list, small.zones, small.chunks, live, others)
    }

    /** `Galloc::new` on a pool whose pages are all free: its lowest page becomes the first zone. */
    constructor (pool: Pool)
      requires pool.Valid() && PageNo(pool.top) < |pool.ram.pages|
      requires pool.list == Region(PageNo(pool.bottom), PageNo(pool.top) - PageNo(pool.bottom))
      modifies pool, pool.ram
      ensures this.pool == pool && Valid() && live == map[] && others == {}
      ensures State() == HeapState(pool.ram.pages, old(pool.list)[1..], [PageNo(pool.bottom)], [[Chunk(510, false)]], map[], {})
      ensures fresh(small)
    {
      ghost var list := pool.list;
      var page := pool.Palloc();
      this.pool := pool;
      small := new Kalloc(pool, page.addr);
      live, others := map[], {};
      new;
      FreshHeap(pool.ram.pages, PageNo(pool.bottom), PageNo(pool.top) - PageNo(pool.bottom));
    }

    /** The answer of the sub-page allocator, before the block is recorded as live. */
    method AskSmall(layout: Layout) returns (k: KallocResult, ghost j: nat)
      requires Valid() && IsSmall(layout)
      modifies small, pool, pool.ram
      ensures k != Void && (small.Valid() <==> k != Corrupt)
      ensures AllocResult(old(pool.ram.pages), old(pool.list), old(small.zones), old(small.chunks), Words(layout.size), k, j)
      ensures var s' := AfterAnswer(old(State()), layout, k, pool.ram.pages, pool.list, small.zones, small.chunks);
        if k == Corrupt then Broken(old(State()), s')
        else
          && HeapOk(s', PageNo(pool.bottom), PageNo(pool.top))
          && HeapStep(old(State()), if k.Ptr? then Grant(k.ptr, layout) else Refuse(layout), s')
    {
      ghost var s := State();
      k, j := small.Alloc(layout.size);
      SmallAnswered(s, layout, k, pool.ram.pages, pool.list, small.zones, small.chunks,
                    PageNo(pool.bottom), PageNo(pool.top));
    }

    /** A request served by the sub-page allocator. */
    method AllocSmall(layout: Layout) returns (r: GallocResult, ghost j: nat)
      requires Valid() && IsSmall(layout)
      modifies this, small, pool, pool.ram
      ensures others == old(others) && (Valid() <==> r != Corrupted)
      ensures r != Corrupted ==> HeapStep(old(State()), Answer(layout, r), State())
      ensures r == Corrupted ==> Broken(old(State()), State())
      ensures r != NoEnd && SmallOutcome(old(State()), layout, r, j)
    {
      var k;
      k, j := AskSmall(layout);
      match k {
        case Ptr(ptr) =>
          live := live[ptr := layout];
          r := Granted(ptr);
        case Corrupt =>
          r := Corrupted;
        case _ =>
          r := Panicked;
      }
      assert State() == AfterAnswer(old(State()), layout, k, pool.ram.pages, pool.list, small.zones, small.chunks);
    }

    /** A request served with whole pages. */
    method AllocBig(layout: Layout, num: nat) returns (r: GallocResult)
      requires Valid() && !IsSmall(layout) && layout.size > 0 && layout.align <= 4096 && num == NumPages(layout)
      modifies this, pool, pool.ram
      ensures Valid() && others == old(others)
      ensures r != NoEnd ==> HeapStep(old(State()), Answer(layout, r), State())
      ensures r == NoEnd ==> State() == old(State())
      ensures BigOutcome(old(pool.list), layout, r)
      ensures r.Granted? ==>
        forall q :: q in PagesOf(r.addr, layout) && q < |pool.ram.pages| ==> pool.ram.pages[q] == ZeroPage()
    {
      ghost var m, list := pool.ram.pages, pool.list;
      var p := pool.PallocPlural(num);
      match p {
        case Ok(addr) =>
          BigServed(m, list, small.zones, small.chunks, live, others, layout, pool.ram.pages,
                    PageNo(pool.bottom), PageNo(pool.top));
          live := live[addr := layout];
          r := Granted(addr);
        case Derailed =>
          r := NoEnd;
        case _ =>
          r := Panicked;
      }
    }

    /** `alloc`: a step of the heap, with the exact conditions under which it serves the request. The heap
        is in order afterwards unless the request has overrun the first zone. */
    method Alloc(layout: Layout) returns (r: GallocResult, ghost j: nat)
      requires Valid()
      modifies this, small, pool, pool.ram
      ensures others == old(others) && (Valid() <==> r != Corrupted)
      ensures r.Granted? || r == Panicked ==> HeapStep(old(State()), Answer(layout, r), State())
      ensures r == NoEnd ==> State() == old(State())
      ensures r == Corrupted ==> Broken(old(State()), State())
      ensures Outcome(old(State()), layout, r, j)
      ensures r.Granted? && !IsSmall(layout) ==>
        forall q :: q in PagesOf(r.addr, layout) && q < |pool.ram.pages| ==> pool.ram.pages[q] == ZeroPage()
    {
      j := 0;
      if layout.align > 4096 {
        return Panicked, j;
      }
      var scheme := DecideInternalScheme(layout);
      match scheme {
        case None =>
          r := Panicked;
        case Some(num) =>
          if num == 0 {
            r, j := AllocSmall(layout);
          } else {
            r := AllocBig(layout, num);
          }
      }
    }

    /** Freeing the block at `ptr` empties a zone other than the first. */
    ghost predicate EmptiesZone(ptr: nat)
      requires ptr in live && |small.chunks| == |small.zones|
      reads this, small
    {
      IsSmall(live[ptr]) && EmptiesIn(small.zones, small.chunks, ptr)
    }

    /** The chunk given back to the sub-page allocator, before the block is taken off the live ones. */
    method GiveSmall(ptr: nat) returns (ghost atRelease: Mem)
      requires Valid() && ptr in live && IsSmall(live[ptr])
      modifies small, pool, pool.ram
      ensures !old(EmptiesZone(ptr)) ==>
        && small.Valid() && HeapOk(StateWithout(ptr), PageNo(pool.bottom), PageNo(pool.top))
        && HeapStep(old(State()), Return(ptr), StateWithout(ptr))
      ensures old(EmptiesZone(ptr)) ==> !pool.Valid() && FreedLate(old(State()), ptr, atRelease, StateWithout(ptr))
    {
      ghost var s := State();
      ghost var i := SmallExtent(s.mem, s.zones, s.chunks, live, ptr);
      ghost var b := BlockOf(ptr, live[ptr]).block;
      EmptiesAt(s, ptr, i, PageNo(pool.bottom), PageNo(pool.top));
      atRelease := small.Free(ptr, i, b);
      SmallGone(s, ptr, i, StateWithout(ptr), PageNo(pool.bottom), PageNo(pool.top));
      LateGone(s, ptr, i, atRelease, StateWithout(ptr), PageNo(pool.bottom), PageNo(pool.top));
    }

    ghost function StateWithout(ptr: nat): HeapState
      reads this, small, pool, pool.ram
    {
      HeapState(pool.ram.pages, pool.list, small.zones, small.chunks, live - {ptr}, others)
    }

    method DeallocSmall(ptr: nat) returns (ghost atRelease: Mem)
      requires Valid() && ptr in live && IsSmall(live[ptr])
      modifies this, small, pool, pool.ram
      ensures others == old(others) && live == old(live) - {ptr}
      ensures !old(EmptiesZone(ptr)) ==> Valid() && HeapStep(old(State()), Return(ptr), State())
      ensures old(EmptiesZone(ptr)) ==> !Valid() && FreedLate(old(State()), ptr, atRelease, State())
    {
      atRelease := GiveSmall(ptr);
      ghost var s' := StateWithout(ptr);
      live := live - {ptr};
      assert State() == s';
    }

    method DeallocBig(ptr: nat, num: nat)
      requires Valid() && ptr in live && !IsSmall(live[ptr]) && num == NumPages(live[ptr])
      modifies this, pool, pool.ram
      ensures Valid() && others == old(others) && HeapStep(old(State()), Return(ptr), State())
    {
      ghost var m, list := pool.ram.pages, pool.list;
      BigBounds(list, small.zones, live, others, ptr, PageNo(pool.bottom), PageNo(pool.top));
      var r := pool.PfreePlural(ptr, num);
      BigReturned(m, list, small.zones, small.chunks, live, others, ptr, pool.ram.pages, pool.list,
                  PageNo(pool.bottom), PageNo(pool.top));
      live := live - {ptr};
    }

    /** `dealloc` of a live block with its layout: a step of the heap, unless the block is the last of a zone
        other than the first. Then the zone has been released, and the late header write has replaced a
        link of the free list. */
    method Dealloc(ptr: nat, layout: Layout) returns (ghost atRelease: Mem)
      requires Valid() && ptr in live && live[ptr] == layout
      modifies this, small, pool, pool.ram
      ensures others == old(others) && live == old(live) - {ptr}
      ensures !old(EmptiesZone(ptr)) ==> Valid() && HeapStep(old(State()), Return(ptr), State())
      ensures old(EmptiesZone(ptr)) ==> !Valid() && FreedLate(old(State()), ptr, atRelease, State())
    {
      var scheme := DecideInternalScheme(layout);
      assert layout.align <= 4096 && scheme.Some?;
      atRelease := pool.ram.pages;
      if scheme.value == 0 {
        atRelease := DeallocSmall(ptr);
      } else {
        DeallocBig(ptr, scheme.value);
      }
    }

    /** The allocator after a client has written inside the live block at `a`, starting from `s`. */
    lemma WriteKeepsValid(s: HeapState, a: nat)
      requires small.pool == pool && small.head == pool.bottom
      requires small.zones != [] && small.head == 4096 * small.zones[0] && small.end == small.head + 4096 && small.Placed()
      requires pool.Geometry() && PageNo(pool.top) < |s.mem| && InRange(pool.list, PageNo(pool.bottom), PageNo(pool.top))
      requires pool.free == if pool.list == [] then None else Some(4096 * pool.list[0])
      requires HeapOk(s, PageNo(pool.bottom), PageNo(pool.top)) && HeapStep(s, Write(a), State())
      ensures Valid() && ContentKept(s.mem, pool.ram.pages, live - {a})
    {
      StepOk(s, Write(a), State(), PageNo(pool.bottom), PageNo(pool.top));
    }

    /** A client stores zeros into the first `n` bytes of its block. */
    method ZeroBlock(a: nat, n: nat)
      requires Valid() && a in live && n <= Capacity(live[a])
      modifies pool.ram
      ensures Valid() && HeapStep(old(State()), Write(a), State())
      ensures ContentKept(old(pool.ram.pages), pool.ram.pages, live - {a})
      ensures a + n <= 4096 * |pool.ram.pages|
      ensures forall x: nat :: a <= x < a + n ==> ByteAt(pool.ram.pages, x) == 0
    {
      ghost var s, m := State(), pool.ram.pages;
      BlockInMemory(m, pool.list, small.zones, small.chunks, live, others, a, PageNo(pool.bottom), PageNo(pool.top));
      ZeroBytes(pool.ram, a, n);
      WordsInBlock(m, pool.ram.pages, a, live[a], n);
      WriteKeepsValid(s, a);
    }

    /** A client copies the first `n` bytes of one block into another. */
    method CopyBlock(a: nat, b: nat, n: nat)
      requires Valid() && a in live && b in live && a != b && n <= live[a].size && n <= Capacity(live[b])
      requires a + n <= b || b + n <= a
      modifies pool.ram
      ensures Valid() && HeapStep(old(State()), Write(b), State())
      ensures ContentKept(old(pool.ram.pages), pool.ram.pages, live - {b})
      ensures Copied(old(pool.ram.pages), pool.ram.pages, a, b, n)
    {
      ghost var s, m := State(), pool.ram.pages;
      BlockInMemory(m, pool.list, small.zones, small.chunks, live, others, a, PageNo(pool.bottom), PageNo(pool.top));
      BlockInMemory(m, pool.list, small.zones, small.chunks, live, others, b, PageNo(pool.bottom), PageNo(pool.top));
      CapacityHolds(live[a]);
      CopyBytes(pool.ram, a, b, n);
      WordsInBlock(m, pool.ram.pages, b, live[b], n);
      WriteKeepsValid(s, b);
    }

    /** `alloc_zeroed`: granted exactly when `alloc` is; then every byte of the block is zero, and every
        other block is as it was. */
    method AllocZeroed(layout: Layout) returns (r: GallocResult, ghost j: nat)
      requires Valid()
      modifies this, small, pool, pool.ram
      ensures others == old(others) && (Valid() <==> r != Corrupted) && Outcome(old(State()), layout, r, j)
      ensures !r.Granted? ==> live == old(live)
      ensures r.Granted? ==> r.addr !in old(live) && live == old(live)[r.addr := layout]
      ensures r.Granted? ==> ContentKept(old(pool.ram.pages), pool.ram.pages, old(live))
      ensures r.Granted? ==> AllZero(pool.ram.pages, r.addr, layout.size)
    {
      r, j := Alloc(layout);
      if !r.Granted? {
        return;
      }
      ghost var m := pool.ram.pages;
      GrantFacts(old(State()), layout, r.addr, State(), PageNo(pool.bottom), PageNo(pool.top));
      var scheme := DecideInternalScheme(layout);
      if scheme == Some(0) {
        ZeroBlock(r.addr, layout.size);
        ContentTrans(old(pool.ram.pages), m, pool.ram.pages, old(live));
      } else {
        ZeroedBlock(m, r.addr, layout);
      }
    }

    /** The second half of `realloc`: the old bytes are copied to the new block and the old block is
        given back. */
    method MoveBlock(ptr: nat, layout: Layout, out: nat) returns (ghost mid: HeapState)
      requires Valid() && ptr in live && live[ptr] == layout && out in live && out != ptr
      requires layout.size <= Capacity(live[out]) && (ptr + Capacity(layout) <= out || out + Capacity(live[out]) <= ptr)
      modifies this, small, pool, pool.ram
      ensures HeapStep(old(State()), Write(out), mid) && Copied(old(pool.ram.pages), mid.mem, ptr, out, layout.size)
      ensures others == old(others) && live == old(live) - {ptr}
      ensures !old(EmptiesZone(ptr)) ==> Valid() && HeapStep(mid, Return(ptr), State())
      ensures old(EmptiesZone(ptr)) ==> !Valid()
    {
      BlockHolds(State(), ptr);
      CopyBlock(ptr, out, layout.size);
      mid := State();
      ghost var atRelease := Dealloc(ptr, layout);
    }

    /** `realloc` to a size whose block can hold the old bytes, as any size not below the old one can. It
        is granted exactly when `alloc` is. Then the old bytes are in the new block and every other block
        is as it was, unless the old block was the last of a zone other than the first. */
    method Realloc(ptr: nat, layout: Layout, newSize: nat) returns (r: GallocResult, ghost j: nat)
      requires Valid() && ptr in live && live[ptr] == layout
      requires layout.size <= Capacity(Layout(newSize, layout.align))
      modifies this, small, pool, pool.ram
      ensures others == old(others) && Outcome(old(State()), Layout(newSize, layout.align), r, j)
      ensures !r.Granted? ==> live == old(live) && (Valid() <==> r != Corrupted)
      ensures r.Granted? ==>
        r.addr !in old(live) && live == old(live)[r.addr := Layout(newSize, layout.align)] - {ptr}
      ensures r.Granted? ==> (Valid() <==> !old(EmptiesZone(ptr)))
      ensures r.Granted? && Valid() ==>
        && ContentKept(old(pool.ram.pages), pool.ram.pages, old(live) - {ptr})
        && Copied(old(pool.ram.pages), pool.ram.pages, ptr, r.addr, layout.size)
    {
      ghost var s0, lo, hi := State(), PageNo(pool.bottom), PageNo(pool.top);
      ghost var l := Layout(newSize, layout.align);
      r, j := Alloc(Layout(newSize, layout.align));
      if !r.Granted? {
        return;
      }
      ghost var s1 := State();
      GrantFacts(s0, l, r.addr, s1, lo, hi);
      MoveReady(s0, l, r.addr, s1, ptr, lo, hi);
      ghost var s2 := MoveBlock(ptr, layout, r.addr);
      Moved(s0, s1, s2, State(), ptr, r.addr, l, lo, hi);
    }
  }

  /** What a grant means to the client: a new block in memory, and nothing lost. */
  lemma GrantFacts(s: HeapState, l: Layout, a: nat, s': HeapState, lo: nat, hi: nat)
    ensures HeapOk(s, lo, hi) && HeapStep(s, Grant(a, l), s') ==>
      && a !in s.live && s'.live == s.live[a := l] && s'.live - {a} == s.live && s'.others == s.others
      && |s'.mem| == |s.mem| && ContentKept(s.mem, s'.mem, s.live)
      && l.size > 0 && l.size <= Capacity(l) && a + Capacity(l) <= 4096 * |s'.mem| && InShape(a, l)
  {
    if HeapOk(s, lo, hi) && HeapStep(s, Grant(a, l), s') {
      StepOk(s, Grant(a, l), s', lo, hi);
      CapacityHolds(l);
      BlockInMemory(s'.mem, s'.list, s'.zones, s'.chunks, s'.live, s'.others, a, lo, hi);
      assert s'.live - {a} == s.live;
    }
  }

  lemma BlockHolds(s: HeapState, a: nat)
    ensures Placed(s.live) && a in s.live ==> s.live[a].size <= Capacity(s.live[a])
  {
    if Placed(s.live) && a in s.live {
      CapacityHolds(s.live[a]);
    }
  }

  /** The old block is still there after a grant, apart from the new one, and the last of its zone exactly
      when it was before. */
  lemma MoveReady(s: HeapState, l: Layout, a: nat, s': HeapState, ptr: nat, lo: nat, hi: nat)
    ensures
      HeapOk(s, lo, hi) && HeapStep(s, Grant(a, l), s') && ptr in s.live
      ==>
      && ptr in s'.live && s'.live[ptr] == s.live[ptr] && ptr != a && |s'.chunks| == |s'.zones|
      && (ptr + Capacity(s.live[ptr]) <= a || a + Capacity(l) <= ptr)
      && (IsSmall(s.live[ptr]) ==> (EmptiesIn(s'.zones, s'.chunks, ptr) <==> EmptiesIn(s.zones, s.chunks, ptr)))
  {
    if HeapOk(s, lo, hi) && HeapStep(s, Grant(a, l), s') && ptr in s.live {
      StepOk(s, Grant(a, l), s', lo, hi);
      BlocksApart(s'.mem, s'.zones, s'.chunks, s'.live, ptr, a);
      if IsSmall(s.live[ptr]) {
        StaysFilled(s.mem, s.zones, s.chunks, s.live, ptr, s'.mem, s'.zones, s'.chunks);
      }
    }
  }

  lemma StepKeeps(s: HeapState, e: HeapEvent, s': HeapState, lo: nat, hi: nat)
    ensures HeapOk(s, lo, hi) && HeapStep(s, e, s') ==>
      HeapOk(s', lo, hi) && |s'.mem| == |s.mem| && ContentKept(s.mem, s'.mem, Spared(s.live, e))
  {
    if HeapOk(s, lo, hi) && HeapStep(s, e, s') {
      StepOk(s, e, s', lo, hi);
    }
  }

  lemma InMemory(s: HeapState, a: nat, lo: nat, hi: nat)
    ensures HeapOk(s, lo, hi) && a in s.live ==>
      s.live[a].size > 0 && InShape(a, s.live[a]) && a + Capacity(s.live[a]) <= 4096 * |s.mem|
  {
    if HeapOk(s, lo, hi) && a in s.live {
      BlockInMemory(s.mem, s.list, s.zones, s.chunks, s.live, s.others, a, lo, hi);
    }
  }

  /** The state once the new block has been granted and written. */
  lemma CopiedIn(s0: HeapState, s1: HeapState, s2: HeapState, a: nat, l: Layout, lo: nat, hi: nat)
    ensures
      HeapOk(s0, lo, hi) && HeapStep(s0, Grant(a, l), s1) && HeapStep(s1, Write(a), s2)
      ==>
      && HeapOk(s2, lo, hi) && s2.live == s0.live[a := l] && s2.others == s0.others && a !in s0.live
      && |s0.mem| == |s1.mem| == |s2.mem| && InShape(a, l) && a + Capacity(l) <= 4096 * |s0.mem|
      && ContentKept(s0.mem, s1.mem, s0.live) && ContentKept(s1.mem, s2.mem, s0.live)
  {
    if HeapOk(s0, lo, hi) && HeapStep(s0, Grant(a, l), s1) && HeapStep(s1, Write(a), s2) {
      GrantFacts(s0, l, a, s1, lo, hi);
      StepKeeps(s0, Grant(a, l), s1, lo, hi);
      StepKeeps(s1, Write(a), s2, lo, hi);
    }
  }

  lemma ReturnFacts(s: HeapState, ptr: nat, s': HeapState, lo: nat, hi: nat)
    ensures HeapOk(s, lo, hi) && HeapStep(s, Return(ptr), s') ==>
      && s'.live == s.live - {ptr} && s'.others == s.others
      && |s'.mem| == |s.mem| && ContentKept(s.mem, s'.mem, s'.live)
  {
    StepKeeps(s, Return(ptr), s', lo, hi);
  }

  /** A grant, a copy and a return move the bytes of one block to another and keep all other blocks. */
  lemma Moved(s0: HeapState, s1: HeapState, s2: HeapState, s3: HeapState, ptr: nat, a: nat, l: Layout, lo: nat, hi: nat)
    ensures
      && HeapOk(s0, lo, hi) && ptr in s0.live && s0.live[ptr].size <= Capacity(l)
      && HeapStep(s0, Grant(a, l), s1) && HeapStep(s1, Write(a), s2) && HeapStep(s2, Return(ptr), s3)
      && Copied(s1.mem, s2.mem, ptr, a, s0.live[ptr].size)
      ==>
      && ContentKept(s0.mem, s3.mem, s0.live - {ptr}) && Copied(s0.mem, s3.mem, ptr, a, s0.live[ptr].size)
      && s3.live == s0.live[a := l] - {ptr} && s3.others == s0.others
  {
    CopiedIn(s0, s1, s2, a, l, lo, hi);
    ReturnFacts(s2, ptr, s3, lo, hi);
    if && HeapOk(s0, lo, hi) && ptr in s0.live && s0.live[ptr].size <= Capacity(l)
       && HeapStep(s0, Grant(a, l), s1) && HeapStep(s1, Write(a), s2) && HeapStep(s2, Return(ptr), s3)
       && Copied(s1.mem, s2.mem, ptr, a, s0.live[ptr].size) {
      InMemory(s0, ptr, lo, hi);
      MovedBytes(s0.mem, s1.mem, s2.mem, s3.mem, s0.live, ptr, a, l);
    }
  }

  lemma SmallWord(w: nat, j: nat)
    ensures w < 65536 && j >= 2 ==> ByteOf(w, j) == 0
  {
    if w < 65536 && j >= 2 {
      ZeroByte(j - 2);
      assert w / 256 / 256 == 0;
      assert ByteOf(w, j) == ByteOf(w / 256, j - 1) == ByteOf(w / 256 / 256, j - 2);
    }
  }

  /** The byte copied to byte `j` of the word behind the block `dst`. */
  lemma WordBehind(m: Mem, m': Mem, src: nat, dst: nat, l: Layout, n: nat, j: nat)
    requires IsSmall(l) && InShape(dst, l) && PageNo(dst) < |m'| && Copied(m, m', src, dst, n)
    requires j < 8 && Capacity(l) + j < n && Slot(dst) + Words(l.size) < 512
    ensures ByteOf(m'[PageNo(dst)][Slot(dst) + Words(l.size)], j) == ByteAt(m, src + Capacity(l) + j)
  {
    var p, k := PageNo(dst), Slot(dst) + Words(l.size);
    var x := 4096 * p + 8 * k + j;
    assert x == dst + Capacity(l) + j;
    DivUnique(x, 4096, p, 8 * k + j);
    DivUnique(8 * k + j, 8, k, j);
    SameWord(x);
    assert ByteAt(m', x) == ByteAt(m, src + (x - dst));
  }

  /** A word that can be the header of a chunk at word `k` of a page. */
  ghost predicate IsHeader(w: nat, k: nat) {
    exists c: Chunk :: w == Hdr(c) && k + 1 + c.words <= 512
  }

  /** As long as the words up to a live payload `b` are as they were, any chunks that tile the page have a
      header behind `b`. */
  lemma HeaderBehind(z: Page, nx: nat, cs: seq<Chunk>, b: Block, z': Page, cs': seq<Chunk>)
    requires ZoneOk(z, nx, cs) && b in Blocks(1, cs) && b.start + b.words < 512
    requires ZoneShape(z', cs') && forall k :: 0 <= k < b.start ==> z'[k] == z[k]
    ensures IsHeader(z'[b.start + b.words], b.start + b.words)
  {
    var pre, post := SplitBlock(z, nx, cs, b);
    var c := Chunk(b.words, true);
    Cat3(z, 1, pre, [c], post);
    TilesFrame(z, z', 1, pre);
    One(z, 1 + Span(pre), c);
    One(z', 1 + Span(pre), c);
    Cat(z', 1, pre, [c]);
    ChunkBehind(z', pre + [c], cs');
  }

  /** `realloc` copies the old size even when it shrinks. When more arrives than the new block holds, and
      the word behind the new block is no header afterwards, the zone is broken: no chunks tile it. */
  lemma ShrinkBreaks(s: HeapState, m': Mem, src: nat, dst: nat, n: nat, lo: nat, hi: nat)
    requires HeapOk(s, lo, hi) && dst in s.live && IsSmall(s.live[dst]) && CopyStep(s.mem, m', src, dst, n)
    requires var k := Slot(dst) + Words(s.live[dst].size);
      k < 512 && PageNo(dst) < |m'| && !IsHeader(m'[PageNo(dst)][k], k)
    ensures forall chunks :: !Chain(m', s.zones, chunks)
  {
    var i := SmallExtent(s.mem, s.zones, s.chunks, s.live, dst);
    var p, b := PageNo(dst), BlockOf(dst, s.live[dst]).block;
    assert ZoneAt(s.mem, s.zones, s.chunks, i);
    BeforeKept(s.mem, m', dst, n, p, b.start);
    forall chunks ensures !Chain(m', s.zones, chunks) {
      if Chain(m', s.zones, chunks) {
        ZoneHere(m', s.zones, chunks, i);
        HeaderBehind(s.mem[p], NextZone(s.zones, i), s.chunks[i], b, m'[p], chunks[i]);
      }
    }
  }

  /** So it is whenever the old block has a non-zero byte that would be above the first two of the header. */
  lemma ShrinkBreaksBytes(s: HeapState, m': Mem, src: nat, dst: nat, n: nat, j: nat, lo: nat, hi: nat)
    requires HeapOk(s, lo, hi) && dst in s.live && IsSmall(s.live[dst]) && CopyStep(s.mem, m', src, dst, n)
    requires 2 <= j < 8 && Capacity(s.live[dst]) + j < n && Slot(dst) + Words(s.live[dst].size) < 512
    requires ByteAt(s.mem, src + Capacity(s.live[dst]) + j) != 0
    ensures forall chunks :: !Chain(m', s.zones, chunks)
  {
    var l := s.live[dst];
    BlockInMemory(s.mem, s.list, s.zones, s.chunks, s.live, s.others, dst, lo, hi);
    WordBehind(s.mem, m', src, dst, l, n, j);
    SmallWord(m'[PageNo(dst)][Slot(dst) + Words(l.size)], j);
    ShrinkBreaks(s, m', src, dst, n, lo, hi);
  }

  lemma ZoneHere(m: Mem, zones: seq<nat>, chunks: seq<seq<Chunk>>, i: nat)
    requires Chain(m, zones, chunks) && i < |zones|
    ensures ZoneShape(m[zones[i]], chunks[i])
  {
    assert ZoneAt(m, zones, chunks, i);
  }

  lemma BeforeKept(m: Mem, m': Mem, dst: nat, n: nat, p: nat, start: nat)
    requires WordsKept(m, m', dst, n) && p < |m| && start < 512 && dst == 4096 * p + 8 * start
    ensures forall k :: 0 <= k < start ==> m'[p][k] == m[p][k]
  {
    forall k | 0 <= k < start ensures m'[p][k] == m[p][k] {
      assert !Touches(dst, n, p, k);
    }
  }

  /** The `n` bytes from `a` on are in memory and zero. */
  ghost predicate AllZero(m: Mem, a: nat, n: nat) {
    a + n <= 4096 * |m| && forall x: nat :: a <= x < a + n ==> ByteAt(m, x) == 0
  }

  /** A block of zeroed pages holds zero bytes. */
  lemma ZeroedBlock(m: Mem, a: nat, l: Layout)
    requires !IsSmall(l) && l.size > 0 && InShape(a, l) && a + l.size <= 4096 * |m|
    requires forall q :: q in PagesOf(a, l) && q < |m| ==> m[q] == ZeroPage()
    ensures AllZero(m, a, l.size)
  {
    forall x: nat | a <= x < a + l.size ensures ByteAt(m, x) == 0 {
      ZeroPages(m, a, l, x);
    }
  }

  /** An allocation does not change whether another block is the last of its zone. */
  lemma StaysFilled(m: Mem, zones: seq<nat>, chunks: seq<seq<Chunk>>, live: map<nat, Layout>, ptr: nat,
                    m': Mem, zones': seq<nat>, chunks': seq<seq<Chunk>>)
    requires LiveOk(m, zones, chunks, live) && ptr in live && IsSmall(live[ptr])
    requires Chain(m', zones', chunks') && TailKept(zones, chunks, zones', chunks')
    ensures EmptiesIn(zones', chunks', ptr) <==> EmptiesIn(zones, chunks, ptr)
  {
    var k := SmallExtent(m, zones, chunks, live, ptr);
    assert zones'[k] == zones[k];
    forall i | 0 < i < |zones'| && zones'[i] == PageNo(ptr) ensures i == k {
    }
    if k > 0 && Used(chunks[k]) == 1 {
      assert zones'[k] == PageNo(ptr) && Used(chunks'[k]) == 1;
    }
  }

  /** How a request ends, as an event of the heap. */
  ghost function Answer(layout: Layout, r: GallocResult): HeapEvent {
    if r.Granted? then Grant(r.addr, layout) else Refuse(layout)
  }

  /** The exact outcome of a small request. */
  ghost predicate SmallOutcome(s: HeapState, layout: Layout, r: GallocResult, j: nat)
    requires s.zones != [] && |s.chunks| == |s.zones| && s.zones[0] + 1 < |s.mem|
  {
    && r != NoEnd
    && AllocResult(s.mem, s.list, s.zones, s.chunks, Words(layout.size),
                   match r case Granted(a) => Ptr(a) case Corrupted => Corrupt case _ => OOM, j)
  }

  /** The exact outcome of a request for whole pages. */
  ghost predicate BigOutcome(list: seq<nat>, layout: Layout, r: GallocResult) {
    && (r.Granted? <==> Serves(list, NumPages(layout))) && (r.Granted? ==> r.addr == 4096 * list[0])
    && (r == NoEnd <==> NumPages(layout) >= 2 && |list| == 1) && r != Corrupted
  }

  /** The exact outcome of every request. */
  ghost predicate Outcome(s: HeapState, layout: Layout, r: GallocResult, j: nat)
    requires s.zones != [] && |s.chunks| == |s.zones| && s.zones[0] + 1 < |s.mem|
  {
    if layout.align > 4096 || layout.size == 0 then r == Panicked
    else if IsSmall(layout) then SmallOutcome(s, layout, r, j)
    else BigOutcome(s.list, layout, r)
  }

  /** An overrun has broken the first zone and changed the page behind it; nothing else has changed. */
  ghost predicate Broken(s: HeapState, s': HeapState) {
    && s.zones != [] && |s.chunks| == |s.zones| && s' == s.(mem := s'.mem)
    && Overran(s.mem, s.zones[0], NextZone(s.zones, 0), s.chunks[0], s'.mem)
  }

  /** The heap after an answer of the sub-page allocator. */
  ghost function AfterAnswer(s: HeapState, layout: Layout, k: KallocResult, m: Mem, list: seq<nat>, zones: seq<nat>,
                             chunks: seq<seq<Chunk>>): HeapState {
    HeapState(m, list, zones, chunks, if k.Ptr? then s.live[k.ptr := layout] else s.live, s.others)
  }

  /** What an answer of the sub-page allocator means for the live blocks and the pages. */
  lemma SmallAnswered(s: HeapState, layout: Layout, k: KallocResult, m: Mem, list: seq<nat>, zones: seq<nat>,
                      chunks: seq<seq<Chunk>>, lo: nat, hi: nat)
    requires IsSmall(layout)
    ensures
      && HeapOk(s, lo, hi) && Answered(s.mem, s.list, s.zones, s.chunks, k, Words(layout.size), m, list, zones, chunks)
      && (k != Corrupt ==>
            Sorted(list) && Linked(m, list) && Chain(m, zones, chunks) && Elems(zones) !! Elems(list))
      ==>
      var s' := AfterAnswer(s, layout, k, m, list, zones, chunks);
      if k == Corrupt then Broken(s, s')
      else HeapOk(s', lo, hi) && HeapStep(s, if k.Ptr? then Grant(k.ptr, layout) else Refuse(layout), s')
  {
    var s' := AfterAnswer(s, layout, k, m, list, zones, chunks);
    if && HeapOk(s, lo, hi) && k != Corrupt
       && Answered(s.mem, s.list, s.zones, s.chunks, k, Words(layout.size), m, list, zones, chunks)
       && Sorted(list) && Linked(m, list) && Chain(m, zones, chunks) && Elems(zones) !! Elems(list) {
      if k.Ptr? {
        GrantOk(s, k.ptr, layout, s', lo, hi);
      } else {
        assert SmallStep(s, OOM, Words(layout.size), s');
        RefuseOk(s, layout, s', lo, hi);
      }
    }
  }

  /** The late write of a free that has emptied the second zone: the zone has been released properly in
      memory `atRelease`, and the write then replaces the next link of its page. */
  ghost predicate FreedLate(s: HeapState, ptr: nat, atRelease: Mem, s': HeapState) {
    && ptr in s.live && |s.zones| == 2 && s'.zones == [s.zones[0]]
    && Elems(s'.list) == Elems(s.list) + {s.zones[1]}
    && LateWritten(atRelease, s'.list, s'.zones, s'.chunks, s.zones[1], BlockOf(ptr, s.live[ptr]).block, s'.mem)
    && !LinksIntact(s'.mem, s'.list)
  }

  lemma SmallGone(s: HeapState, ptr: nat, i: nat, s': HeapState, lo: nat, hi: nat)
    ensures
      && HeapOk(s, lo, hi) && ptr in s.live && IsSmall(s.live[ptr]) && SmallReturn(s, ptr, i, s')
      && s'.live == s.live - {ptr} && s'.others == s.others
      ==> HeapStep(s, Return(ptr), s') && HeapOk(s', lo, hi)
  {
    if && HeapOk(s, lo, hi) && ptr in s.live && IsSmall(s.live[ptr]) && SmallReturn(s, ptr, i, s')
       && s'.live == s.live - {ptr} && s'.others == s.others {
      ReturnOk(s, ptr, s', lo, hi);
    }
  }

  lemma LateGone(s: HeapState, ptr: nat, i: nat, atRelease: Mem, s': HeapState, lo: nat, hi: nat)
    ensures
      && HeapOk(s, lo, hi) && ptr in s.live && IsSmall(s.live[ptr]) && i == 1 && i < |s.zones| && s.zones[i] == PageNo(ptr)
      && s'.zones == Without(s.zones, i) && Elems(s'.list) == Elems(s.list) + {s.zones[i]}
      && LateWritten(atRelease, s'.list, s'.zones, s'.chunks, s.zones[i], BlockOf(ptr, s.live[ptr]).block, s'.mem)
      ==> FreedLate(s, ptr, atRelease, s')
  {
    if HeapOk(s, lo, hi) && ptr in s.live && IsSmall(s.live[ptr]) && i == 1 && i < |s.zones| && s.zones[i] == PageNo(ptr) {
      EmptiesAt(s, ptr, i, lo, hi);
    }
  }

  /** Zone `i`, where the block at `ptr` is, is emptied by freeing it exactly when it is the second. */
  lemma EmptiesAt(s: HeapState, ptr: nat, i: nat, lo: nat, hi: nat)
    requires HeapOk(s, lo, hi) && ptr in s.live && IsSmall(s.live[ptr]) && i < |s.zones| && s.zones[i] == PageNo(ptr)
    ensures EmptiesIn(s.zones, s.chunks, ptr) <==> i == 1
    ensures i == 1 ==> Used(s.chunks[1]) == 1 && Slot(ptr) == 2 && |s.zones| == 2
  {
    if i == 1 {
      SecondZoneFree(s, ptr, lo, hi);
    }
  }
}
