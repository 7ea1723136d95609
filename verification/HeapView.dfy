/** The live blocks of the general allocator, and how they share the pool's pages with the free
    list, the zones and the pages others hold. */
module HeapView {
  import opened Bits
  import opened Memory
  import opened FreeList
  import opened Chunks
  import opened Headers
  import opened ZoneChain

  datatype Layout = Layout(size: nat, align: nat)

  /** The number of pages for a layout, or 0 for the sub-page allocator; `None` for the panic on size 0. */
  function DecideInternalScheme(layout: Layout): (r: Option<nat>)
    ensures r == None <==> layout.size == 0
    ensures r == Some(0) <==> 1 <= layout.size <= 4080 && layout.align <= 8
    ensures r.Some? && r.value > 0 ==> 4096 * (r.value - 1) < layout.size <= 4096 * r.value
  {
    if layout.size == 0 then None
    else if layout.size <= 4080 then
      if layout.align <= 8 then Some(0) else Some(1)
    else Some((layout.size + 4096 - 1) / 4096)
  }

  predicate IsSmall(l: Layout) {
    DecideInternalScheme(l) == Some(0)
  }

  /** Pages taken from the pool for a layout. */
  function NumPages(l: Layout): nat {
    DecideInternalScheme(l).GetOr(0)
  }

  /** The bytes a block of this layout can hold. */
  function Capacity(l: Layout): nat {
    if IsSmall(l) then 8 * Words(l.size) else 4096 * NumPages(l)
  }

  /** A block holds what its layout asks for, and wastes less than a word or less than a page. */
  lemma CapacityHolds(l: Layout)
    requires l.size > 0
    ensures l.size <= Capacity(l) < l.size + if l.size <= 4080 && l.align <= 8 then 8 else 4096
  {
  }

  ghost function PagesOf(a: nat, l: Layout): set<nat> {
    Elems(Region(PageNo(a), NumPages(l)))
  }

  ghost function BlockOf(a: nat, l: Layout): LiveBlock {
    LiveBlock(PageNo(a), Block(Slot(a), Words(l.size)))
  }

  /** The pages of the live blocks that are whole pages. */
  ghost function BigPages(live: map<nat, Layout>): set<nat> {
    set a, q | a in live && q in PagesOf(a, live[a]) :: q
  }

  /** The live blocks that are chunks of zones. */
  ghost function SmallBlocks(live: map<nat, Layout>): set<LiveBlock> {
    set a | a in live && IsSmall(live[a]) :: BlockOf(a, live[a])
  }

  /** Small blocks are word aligned, big ones page aligned, and big ones share no page. */
  ghost predicate Placed(live: map<nat, Layout>) {
    && (forall a :: a in live ==> live[a].size > 0 && live[a].align <= 4096)
    && (forall a :: a in live ==> a % 8 == 0)
    && (forall a :: a in live && !IsSmall(live[a]) ==> a % 4096 == 0)
    && (forall a, b :: a in live && b in live && a != b ==> PagesOf(a, live[a]) !! PagesOf(b, live[b]))
  }

  lemma SmallHasNoPages(a: nat, l: Layout)
    requires IsSmall(l)
    ensures PagesOf(a, l) == {}
  {
  }

  lemma PagesOfIff(a: nat, l: Layout, q: nat)
    ensures q in PagesOf(a, l) <==> PageNo(a) <= q < PageNo(a) + NumPages(l)
  {
    RegionElems(PageNo(a), NumPages(l));
  }

  // ---- A block more, a block less ----

  lemma AddPages(live: map<nat, Layout>, a: nat, l: Layout)
    requires a !in live
    ensures BigPages(live[a := l]) == BigPages(live) + PagesOf(a, l)
  {
    var live' := live[a := l];
    forall q ensures q in BigPages(live') <==> q in BigPages(live) + PagesOf(a, l) {
      if q in BigPages(live) {
        var b :| b in live && q in PagesOf(b, live[b]);
        assert b in live' && live'[b] == live[b];
      }
      if q in PagesOf(a, l) {
        assert live'[a] == l;
      }
    }
  }

  lemma RemovePages(live: map<nat, Layout>, a: nat)
    requires a in live && Placed(live)
    ensures BigPages(live - {a}) == BigPages(live) - PagesOf(a, live[a])
  {
    var live' := live - {a};
    forall q ensures q in BigPages(live') <==> q in BigPages(live) - PagesOf(a, live[a]) {
      if q in BigPages(live) - PagesOf(a, live[a]) {
        var b :| b in live && q in PagesOf(b, live[b]);
        assert b in live' && live'[b] == live[b];
      }
      if q in BigPages(live') {
        var b :| b in live' && q in PagesOf(b, live'[b]);
        assert b in live && live[b] == live'[b] && b != a;
      }
    }
  }

  lemma AddSmall(live: map<nat, Layout>, a: nat, l: Layout)
    requires a !in live
    ensures SmallBlocks(live[a := l]) == SmallBlocks(live) + if IsSmall(l) then {BlockOf(a, l)} else {}
  {
    var live' := live[a := l];
    var added := if IsSmall(l) then {BlockOf(a, l)} else {};
    forall x ensures x in SmallBlocks(live') <==> x in SmallBlocks(live) + added {
      if x in SmallBlocks(live) {
        var b :| b in live && IsSmall(live[b]) && x == BlockOf(b, live[b]);
        assert b in live' && live'[b] == live[b];
      }
      if x in added {
        assert live'[a] == l;
      }
    }
  }

  /** A live block's address is that of its payload. */
  lemma BlockAddr(a: nat, b: nat, k: Layout, l: Layout)
    requires a % 8 == 0 && b % 8 == 0 && BlockOf(a, k) == BlockOf(b, l)
    ensures a == b
  {
    AddrSplit(a, 0);
    AddrSplit(b, 0);
  }

  lemma RemoveSmall(live: map<nat, Layout>, a: nat)
    requires a in live && Placed(live)
    ensures SmallBlocks(live - {a}) == SmallBlocks(live) - {BlockOf(a, live[a])}
  {
    var live' := live - {a};
    forall x ensures x in SmallBlocks(live') <==> x in SmallBlocks(live) - {BlockOf(a, live[a])} {
      if x in SmallBlocks(live) - {BlockOf(a, live[a])} {
        var b :| b in live && IsSmall(live[b]) && x == BlockOf(b, live[b]);
        assert b in live' && live'[b] == live[b];
      }
      if x in SmallBlocks(live') {
        var b :| b in live' && IsSmall(live'[b]) && x == BlockOf(b, live'[b]);
        assert b in live && live[b] == live'[b] && b != a;
        if x == BlockOf(a, live[a]) {
          BlockAddr(a, b, live[a], live[b]);
        }
      }
    }
  }

  // ---- Safety of the live blocks ----

  /** The pages of the pool: each is free, a zone, part of a live block, or held by someone else. */
  ghost predicate Partition(list: seq<nat>, zones: seq<nat>, live: map<nat, Layout>, others: set<nat>, lo: nat, hi: nat) {
    && lo <= hi && Elems(list) !! Elems(zones)
    && BigPages(live) !! (Elems(list) + Elems(zones))
    && others !! (Elems(list) + Elems(zones) + BigPages(live))
    && Elems(list) + Elems(zones) + BigPages(live) + others == Elems(Region(lo, hi - lo))
  }

  /** The live blocks agree with the zones, and are placed where they cannot meet. */
  ghost predicate LiveOk(m: Mem, zones: seq<nat>, chunks: seq<seq<Chunk>>, live: map<nat, Layout>) {
    && Chain(m, zones, chunks) && Placed(live)
    && SmallBlocks(live) == Live(zones, chunks) && BigPages(live) !! Elems(zones)
  }

  /** Where a small block lies: inside one zone. */
  lemma SmallExtent(m: Mem, zones: seq<nat>, chunks: seq<seq<Chunk>>, live: map<nat, Layout>, a: nat) returns (i: nat)
    requires LiveOk(m, zones, chunks, live) && a in live && IsSmall(live[a])
    ensures i < |zones| && zones[i] == PageNo(a)
    ensures BlockOf(a, live[a]).block in Blocks(1, chunks[i])
    ensures a == 4096 * PageNo(a) + 8 * Slot(a) && Slot(a) + Words(live[a].size) <= 512
    ensures live[a].size <= 8 * Words(live[a].size)
  {
    var l := BlockOf(a, live[a]);
    assert l in SmallBlocks(live);
    i :| 0 <= i < |zones| && zones[i] == l.page && l.block in Blocks(1, chunks[i]);
    assert ZoneAt(m, zones, chunks, i);
    BlocksWithin(1, chunks[i]);
    AddrSplit(a, live[a].size);
  }

  lemma AddrSplit(a: nat, size: nat)
    requires a % 8 == 0
    ensures a == 4096 * PageNo(a) + 8 * Slot(a) && size <= 8 * Words(size)
  {
    var p, o := a / 4096, a % 4096;
    assert o == 8 * (a / 8 - 512 * p);
    DivUnique(o, 8, a / 8 - 512 * p, 0);
  }

  lemma PageIsWordAligned(a: nat)
    requires a % 4096 == 0
    ensures a % 8 == 0
  {
    DivUnique(a, 8, 512 * (a / 4096), 0);
  }

  /** The first page of a live block is a page of a big block or a zone. */
  lemma LivePage(m: Mem, zones: seq<nat>, chunks: seq<seq<Chunk>>, live: map<nat, Layout>, a: nat)
    requires LiveOk(m, zones, chunks, live) && a in live
    ensures PageNo(a) in BigPages(live) + Elems(zones)
  {
    if IsSmall(live[a]) {
      var i := SmallExtent(m, zones, chunks, live, a);
      assert zones[i] in Elems(zones);
    } else {
      PagesOfIff(a, live[a], PageNo(a));
    }
  }

  /** The whole pages a live block lies in: its zone's page, or its own pages. */
  ghost function Extent(l: Layout): nat {
    if IsSmall(l) then 1 else NumPages(l)
  }

  lemma ExtentBounds(m: Mem, zones: seq<nat>, chunks: seq<seq<Chunk>>, live: map<nat, Layout>, a: nat)
    requires LiveOk(m, zones, chunks, live) && a in live
    ensures Extent(live[a]) >= 1
    ensures 4096 * PageNo(a) <= a && a + Capacity(live[a]) <= 4096 * (PageNo(a) + Extent(live[a]))
  {
    if IsSmall(live[a]) {
      var i := SmallExtent(m, zones, chunks, live, a);
    }
  }

  /** Two live blocks never overlap. */
  lemma BlocksApart(m: Mem, zones: seq<nat>, chunks: seq<seq<Chunk>>, live: map<nat, Layout>, a: nat, b: nat)
    requires LiveOk(m, zones, chunks, live) && a in live && b in live && a != b
    ensures a + Capacity(live[a]) <= b || b + Capacity(live[b]) <= a
  {
    ExtentBounds(m, zones, chunks, live, a);
    ExtentBounds(m, zones, chunks, live, b);
    if PageNo(a) + Extent(live[a]) <= PageNo(b) || PageNo(b) + Extent(live[b]) <= PageNo(a) {
    } else if IsSmall(live[a]) && IsSmall(live[b]) {
      SamePageApart(m, zones, chunks, live, a, b);
    } else {
      PagesMeet(m, zones, chunks, live, a, b);
    }
  }

  lemma SamePageApart(m: Mem, zones: seq<nat>, chunks: seq<seq<Chunk>>, live: map<nat, Layout>, a: nat, b: nat)
    requires LiveOk(m, zones, chunks, live) && a in live && b in live && a != b
    requires IsSmall(live[a]) && IsSmall(live[b]) && PageNo(a) == PageNo(b)
    ensures a + Capacity(live[a]) <= b || b + Capacity(live[b]) <= a
  {
    var i := SmallExtent(m, zones, chunks, live, a);
    var j := SmallExtent(m, zones, chunks, live, b);
    assert i == j;
    if BlockOf(a, live[a]) == BlockOf(b, live[b]) {
      BlockAddr(a, b, live[a], live[b]);
    }
    BlocksDisjoint(1, chunks[i], BlockOf(a, live[a]).block, BlockOf(b, live[b]).block);
  }

  /** Blocks whose extents meet are both small: nothing else shares a page. */
  lemma PagesMeet(m: Mem, zones: seq<nat>, chunks: seq<seq<Chunk>>, live: map<nat, Layout>, a: nat, b: nat)
    requires LiveOk(m, zones, chunks, live) && a in live && b in live && a != b
    requires PageNo(b) < PageNo(a) + Extent(live[a]) && PageNo(a) < PageNo(b) + Extent(live[b])
    ensures IsSmall(live[a]) && IsSmall(live[b])
  {
    var q := if PageNo(a) <= PageNo(b) then PageNo(b) else PageNo(a);
    PagesOfIff(a, live[a], q);
    PagesOfIff(b, live[b], q);
    if IsSmall(live[a]) {
      var i := SmallExtent(m, zones, chunks, live, a);
      assert zones[i] in Elems(zones);
    }
    if IsSmall(live[b]) {
      var i := SmallExtent(m, zones, chunks, live, b);
      assert zones[i] in Elems(zones);
    }
  }

  // ---- Alignment ----

  predicate IsPow2(n: nat) {
    n == 1 || (n >= 2 && n % 2 == 0 && IsPow2(n / 2))
  }

  lemma {:induction false} Pow2Divides(a: nat, b: nat)
    requires IsPow2(a) && IsPow2(b) && a <= b
    ensures b % a == 0
  {
    if a != 1 {
      Pow2Divides(a / 2, b / 2);
      var k := (b / 2) / (a / 2);
      assert b / 2 == (a / 2) * k;
      assert b == a * k by { assert 2 * ((a / 2) * k) == (2 * (a / 2)) * k; }
      DivUnique(b, a, k, 0);
    }
  }

  lemma DividesTrans(x: nat, b: nat, a: nat)
    requires a >= 1 && b >= 1 && x % b == 0 && b % a == 0
    ensures x % a == 0
  {
    var p, q := x / b, b / a;
    assert x == b * p && b == a * q;
    assert x == a * (q * p) by { assert (a * q) * p == a * (q * p); }
    DivUnique(x, a, q * p, 0);
  }

  lemma UnitsArePow2()
    ensures IsPow2(8) && IsPow2(4096)
  {
    assert IsPow2(8) && IsPow2(64) && IsPow2(512);
  }

  /** Every live block is aligned as its layout asks. */
  lemma BlocksAligned(live: map<nat, Layout>, a: nat)
    requires Placed(live) && a in live && IsPow2(live[a].align)
    ensures a % live[a].align == 0
  {
    var n := if IsSmall(live[a]) then 8 else 4096;
    UnitsArePow2();
    Pow2Divides(live[a].align, n);
    DividesTrans(a, n, live[a].align);
  }

  // ---- Contents ----

  /** Every word of every live block is the same in both memories. */
  ghost predicate ContentKept(m: Mem, m': Mem, live: map<nat, Layout>) {
    LiveKept(m, m', SmallBlocks(live)) && forall q :: q in BigPages(live) && q < |m| ==> m'[q] == m[q]
  }

  /** A chunk that is new to the zones is at a new address. */
  lemma FreshChunk(m: Mem, zones: seq<nat>, chunks: seq<seq<Chunk>>, live: map<nat, Layout>, a: nat, n: nat)
    requires Chain(m, zones, chunks) && Placed(live) && BigPages(live) !! Elems(zones) && a % 8 == 0 && n >= 1
    requires Live(zones, chunks) == SmallBlocks(live) + {LiveBlock(PageNo(a), Block(Slot(a), n))}
    requires LiveBlock(PageNo(a), Block(Slot(a), n)) !in SmallBlocks(live)
    ensures a !in live
  {
    var l := LiveBlock(PageNo(a), Block(Slot(a), n));
    var i :| 0 <= i < |zones| && zones[i] == l.page && l.block in Blocks(1, chunks[i]);
    assert ZoneAt(m, zones, chunks, i) && zones[i] in Elems(zones);
    if a in live {
      PagesOfIff(a, live[a], PageNo(a));
      if IsSmall(live[a]) {
        var k := BlockOf(a, live[a]);
        assert k in SmallBlocks(live);
        LiveAt(zones, chunks, i, k.block);
        BlockByStart(1, chunks[i], l.block, k.block);
      }
    }
  }

  /** Adding a small block. */
  lemma AddSmallOk(m: Mem, zones: seq<nat>, chunks: seq<seq<Chunk>>, live: map<nat, Layout>, a: nat, l: Layout)
    requires Chain(m, zones, chunks) && Placed(live) && BigPages(live) !! Elems(zones)
    requires IsSmall(l) && l.align <= 4096 && a % 8 == 0
    requires Live(zones, chunks) == SmallBlocks(live) + {BlockOf(a, l)} && BlockOf(a, l) !in SmallBlocks(live)
    ensures a !in live && LiveOk(m, zones, chunks, live[a := l]) && BigPages(live[a := l]) == BigPages(live)
  {
    FreshChunk(m, zones, chunks, live, a, Words(l.size));
    AddSmall(live, a, l);
    AddPages(live, a, l);
    SmallHasNoPages(a, l);
  }

  /** Adding a block of whole pages. */
  lemma AddBigOk(m: Mem, zones: seq<nat>, chunks: seq<seq<Chunk>>, live: map<nat, Layout>, a: nat, l: Layout)
    requires LiveOk(m, zones, chunks, live) && l.size > 0 && !IsSmall(l) && l.align <= 4096 && a % 4096 == 0
    requires PagesOf(a, l) !! (BigPages(live) + Elems(zones))
    ensures a !in live && LiveOk(m, zones, chunks, live[a := l])
    ensures BigPages(live[a := l]) == BigPages(live) + PagesOf(a, l)
  {
    PagesOfIff(a, l, PageNo(a));
    PageIsWordAligned(a);
    if a in live {
      LivePage(m, zones, chunks, live, a);
    }
    AddSmall(live, a, l);
    AddPages(live, a, l);
    var live' := live[a := l];
    forall b, c | b in live' && c in live' && b != c ensures PagesOf(b, live'[b]) !! PagesOf(c, live'[c]) {
      if b == a {
        assert PagesOf(c, live[c]) <= BigPages(live);
      } else if c == a {
        assert PagesOf(b, live[b]) <= BigPages(live);
      }
    }
  }

  lemma PlacedLess(live: map<nat, Layout>, a: nat)
    requires Placed(live)
    ensures Placed(live - {a})
  {
  }

  /** Taking a small block away. */
  lemma RemoveSmallOk(m: Mem, zones: seq<nat>, chunks: seq<seq<Chunk>>, live: map<nat, Layout>, a: nat)
    requires Chain(m, zones, chunks) && Placed(live) && BigPages(live) !! Elems(zones)
    requires a in live && IsSmall(live[a]) && Live(zones, chunks) == SmallBlocks(live) - {BlockOf(a, live[a])}
    ensures LiveOk(m, zones, chunks, live - {a}) && BigPages(live - {a}) == BigPages(live)
  {
    PlacedLess(live, a);
    RemoveSmall(live, a);
    RemovePages(live, a);
    SmallHasNoPages(a, live[a]);
  }

  /** Taking a block of whole pages away. */
  lemma RemoveBigOk(m: Mem, zones: seq<nat>, chunks: seq<seq<Chunk>>, live: map<nat, Layout>, a: nat)
    requires LiveOk(m, zones, chunks, live) && a in live && !IsSmall(live[a])
    ensures LiveOk(m, zones, chunks, live - {a})
    ensures BigPages(live - {a}) == BigPages(live) - PagesOf(a, live[a])
  {
    PlacedLess(live, a);
    RemovePages(live, a);
    SmallUnmoved(live, a);
  }

  lemma SmallUnmoved(live: map<nat, Layout>, a: nat)
    requires a in live && !IsSmall(live[a])
    ensures SmallBlocks(live - {a}) == SmallBlocks(live)
  {
    var live' := live - {a};
    forall x | x in SmallBlocks(live) ensures x in SmallBlocks(live') {
      var b :| b in live && IsSmall(live[b]) && x == BlockOf(b, live[b]);
      assert b in live' && live'[b] == live[b];
    }
  }

  /** A live block of whole pages is in the pool's range and not free. */
  lemma BigBounds(list: seq<nat>, zones: seq<nat>, live: map<nat, Layout>, others: set<nat>, a: nat, lo: nat, hi: nat)
    requires Partition(list, zones, live, others, lo, hi) && Placed(live) && a in live && !IsSmall(live[a])
    ensures NumPages(live[a]) >= 1 && lo <= PageNo(a) && PageNo(a) + NumPages(live[a]) <= hi
    ensures Apart(list, PageNo(a), NumPages(live[a]))
  {
    var n := NumPages(live[a]);
    RegionElems(lo, hi - lo);
    PagesOfIff(a, live[a], PageNo(a));
    PagesOfIff(a, live[a], PageNo(a) + n - 1);
    assert PageNo(a) in BigPages(live) && PageNo(a) + n - 1 in BigPages(live);
    forall i | 0 <= i < |list| ensures !(PageNo(a) <= list[i] < PageNo(a) + n) {
      PagesOfIff(a, live[a], list[i]);
      assert list[i] in Elems(list);
    }
  }
}
