/** An overrun is not remote: two requests on a fresh heap reach it. */
module Overrun {
  import opened Memory
  import opened FreeList
  import opened PagePool
  import opened Chunks
  import opened FirstFit
  import opened Headers
  import opened Zones
  import opened ZoneChain
  import opened SmallAlloc
  import opened HeapView
  import opened HeapRuns
  import opened GeneralAlloc

  lemma {:induction false} UsedHasBlock(w: nat, cs: seq<Chunk>, i: nat)
    requires i < |cs| && cs[i].used
    ensures Block(w + Span(cs[..i]) + 1, cs[i].words) in Blocks(w, cs)
    decreases |cs|
  {
    if i > 0 {
      UsedHasBlock(w + 1 + cs[0].words, cs[1..], i - 1);
      assert cs[..i][0] == cs[0] && cs[..i][1..] == cs[1..][..i - 1];
    }
  }

  lemma {:induction false} SpanAtLeast(cs: seq<Chunk>)
    ensures Span(cs) >= |cs|
  {
    if cs != [] {
      SpanAtLeast(cs[1..]);
    }
  }

  /** A zone whose one live payload is the word after its first header. */
  lemma LoneWord(z: Page, cs: seq<Chunk>)
    requires ZoneShape(z, cs) && Blocks(1, cs) == {Block(2, 1)}
    ensures |cs| >= 2 && cs[0] == Chunk(1, true) && forall i :: 1 <= i < |cs| ==> !cs[i].used
  {
    var i := FindChunk(1, cs, Block(2, 1));
    SpanAtLeast(cs[..i]);
    assert cs == [cs[0]] + cs[1..];
    forall j | 1 <= j < |cs| ensures !cs[j].used {
      SpanAtLeast(cs[..j]);
      if cs[j].used {
        UsedHasBlock(1, cs, j);
      }
    }
  }

  /** No run of such a zone fits 510 words. */
  lemma LoneNoFit(z: Page, cs: seq<Chunk>)
    requires ZoneShape(z, cs) && |cs| >= 1 && cs[0] == Chunk(1, true)
    ensures NoFit(cs, 510)
  {
    forall i, k | 0 <= i < |cs| && RunStart(cs, i) && i < k <= |cs| ensures Span(cs[i..k]) <= 510 {
      SpanSlices(cs, 0, i, k);
      SpanSlices(cs, 0, k, |cs|);
      assert cs[0..|cs|] == cs;
      SpanAtLeast(cs[0..i]);
    }
  }

  /** A heap whose one live block is the first word of the first zone, with the next page free: a request for
      4080 bytes overruns. */
  lemma LoneOverrun(s: HeapState, lo: nat, hi: nat)
    requires LoneHeap(s, lo, hi)
    ensures |s.zones| == 1 && NoFit(s.chunks[0], 510) && !EndGuarded(s.mem, s.zones[0], s.chunks[0])
  {
    var a, b := 4096 * lo + 16, Block(2, 1);
    Locate(lo, 2);
    assert SmallBlocks(s.live) == {LiveBlock(lo, b)} by {
      assert BlockOf(a, s.live[a]) == LiveBlock(lo, b);
    }
    LoneZone(s, lo, hi);
    forall c ensures c in Blocks(1, s.chunks[0]) <==> c == b {
      LiveAt(s.zones, s.chunks, 0, c);
    }
    assert Blocks(1, s.chunks[0]) == {b};
    assert ZoneAt(s.mem, s.zones, s.chunks, 0);
    LoneWord(s.mem[lo], s.chunks[0]);
    LoneNoFit(s.mem[lo], s.chunks[0]);
    assert LinkedAt(s.mem, s.list, 0);
    Relink(PrevLink(s.list, 0), NextLink(s.list, 0), 0);
  }

  lemma LoneZone(s: HeapState, lo: nat, hi: nat)
    requires HeapOk(s, lo, hi) && SmallBlocks(s.live) == {LiveBlock(lo, Block(2, 1))}
    ensures |s.zones| == 1
  {
    if |s.zones| == 2 {
      var b := Block(1 + Span(s.chunks[1][..0]) + 1, s.chunks[1][0].words);
      UsedHasBlock(1, s.chunks[1], 0);
      LiveAt(s.zones, s.chunks, 1, b);
    }
  }

  /** A fresh heap: one empty zone on the lowest page, and every other page free. */
  ghost predicate FreshHeapState(s: HeapState, lo: nat, hi: nat) {
    && HeapOk(s, lo, hi) && s.zones == [lo] && s.chunks == [[Chunk(510, false)]] && s.live == map[]
    && lo + 1 < |s.mem| && s.list != [] && s.list[0] == lo + 1
  }

  /** The heap after the first request. */
  ghost predicate LoneHeap(s: HeapState, lo: nat, hi: nat) {
    && HeapOk(s, lo, hi) && s.live == map[4096 * lo + 16 := Layout(8, 8)]
    && lo + 1 < |s.mem| && s.list != [] && s.list[0] == lo + 1
  }

  lemma FirstFits(s: HeapState, r: GallocResult, j: nat, lo: nat, hi: nat)
    requires FreshHeapState(s, lo, hi) && Outcome(s, Layout(8, 8), r, j)
    ensures r == Granted(4096 * lo + 16)
  {
    var cs := s.chunks[0];
    assert RunStart(cs, 0) && AllFree(cs[0..1]) && cs[0..1] == cs && Span(cs) == 511;
    assert RunFits(cs, 0, 1) && !NoFit(cs, 1);
    assert Words(8) == 1;
  }

  /** A fresh heap grants eight bytes as the first word of its zone, and keeps its free pages. */
  lemma FirstGrant(s: HeapState, r: GallocResult, j: nat, s': HeapState, lo: nat, hi: nat)
    ensures
      && FreshHeapState(s, lo, hi) && Outcome(s, Layout(8, 8), r, j)
      && (r.Granted? ==> HeapStep(s, Answer(Layout(8, 8), r), s'))
      ==> r == Granted(4096 * lo + 16) && LoneHeap(s', lo, hi)
  {
    if && FreshHeapState(s, lo, hi) && Outcome(s, Layout(8, 8), r, j)
       && (r.Granted? ==> HeapStep(s, Answer(Layout(8, 8), r), s')) {
      FirstFits(s, r, j, lo, hi);
      var a := 4096 * lo + 16;
      StepOk(s, Grant(a, Layout(8, 8)), s', lo, hi);
      Locate(lo, 2);
      assert SmallBlocks(s'.live) == {LiveBlock(lo, Block(2, 1))} by {
        assert BlockOf(a, s'.live[a]) == LiveBlock(lo, Block(2, 1));
      }
      LoneZone(s', lo, hi);
      assert s'.zones == s.zones;
      assert Elems(s'.list) == Elems(s.list);
      SortedUnique(s'.list, s.list);
    }
  }

  lemma SecondAnswer(s: HeapState, r: GallocResult, j: nat, lo: nat, hi: nat)
    ensures LoneHeap(s, lo, hi) && Outcome(s, Layout(4080, 8), r, j) ==> r == Corrupted
  {
    if LoneHeap(s, lo, hi) && Outcome(s, Layout(4080, 8), r, j) {
      LoneOverrun(s, lo, hi);
      assert Words(4080) == 510;
    }
  }

  /** Makes a heap and asks for eight bytes. */
  method FirstRequest(pool: Pool) returns (g: Galloc, first: GallocResult)
    requires pool.Valid() && PageNo(pool.top) < |pool.ram.pages| && PageNo(pool.top) >= PageNo(pool.bottom) + 2
    requires pool.list == Region(PageNo(pool.bottom), PageNo(pool.top) - PageNo(pool.bottom))
    modifies pool, pool.ram
    ensures fresh(g) && fresh(g.small) && g.pool == pool && g.Valid() && first == Granted(pool.bottom + 16)
    ensures LoneHeap(g.State(), PageNo(pool.bottom), PageNo(pool.top))
  {
    g := new Galloc(pool);
    ghost var s, j := g.State(), 0;
    first, j := g.Alloc(Layout(8, 8));
    FirstGrant(s, first, j, g.State(), PageNo(pool.bottom), PageNo(pool.top));
  }

  /** On any fresh heap with a page to spare, eight bytes followed by 4080 bytes end in an overrun. */
  method OverrunReached(pool: Pool) returns (first: GallocResult, second: GallocResult)
    requires pool.Valid() && PageNo(pool.top) < |pool.ram.pages| && PageNo(pool.top) >= PageNo(pool.bottom) + 2
    requires pool.list == Region(PageNo(pool.bottom), PageNo(pool.top) - PageNo(pool.bottom))
    modifies pool, pool.ram
    ensures first == Granted(pool.bottom + 16) && second == Corrupted
  {
    var g;
    g, first := FirstRequest(pool);
    ghost var s, j := g.State(), 0;
    second, j := g.Alloc(Layout(4080, 8));
    SecondAnswer(s, second, j, PageNo(pool.bottom), PageNo(pool.top));
  }
}
