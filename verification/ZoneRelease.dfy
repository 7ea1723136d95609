/** Freeing a chunk of the small allocator, and releasing a zone that has become empty. */
module ZoneRelease {
  import opened Memory
  import opened Bits
  import opened FreeList
  import opened PagePool
  import opened Chunks
  import opened Headers
  import opened Zones
  import opened ZoneChain

  // ---- shrink_pool ----

  /** The zone words thread the zones together, with the given counts. */
  ghost predicate Threaded(m: Mem, zones: seq<nat>, refs: seq<nat>) {
    && |refs| == |zones| && Distinct(zones)
    && (forall k :: 0 <= k < |zones| ==> 1 <= zones[k] < |m| && refs[k] < 4096)
    && (forall k {:trigger ThreadAt(m, zones, refs, k)} :: 0 <= k < |zones| ==> ThreadAt(m, zones, refs, k))
  }

  ghost predicate ThreadAt(m: Mem, zones: seq<nat>, refs: seq<nat>, k: nat)
    requires k < |zones| == |refs|
  {
    zones[k] < |m| && m[zones[k]][0] == NextZone(zones, k) + refs[k]
  }

  function Without<T>(s: seq<T>, i: nat): seq<T>
    requires i < |s|
  {
    s[..i] + s[i + 1..]
  }

  lemma ThreadWord(m: Mem, zones: seq<nat>, refs: seq<nat>, k: nat)
    requires Threaded(m, zones, refs) && k < |zones|
    ensures GetNext(m[zones[k]][0]) == NextZone(zones, k) && GetRefs(m[zones[k]][0]) == refs[k]
  {
    assert ThreadAt(m, zones, refs, k);
    assert (NextZone(zones, k) + refs[k]) % 4096 == refs[k];
  }

  /** Unthreading zone `i`: only its predecessor's word changes. */
  lemma Unthread(m: Mem, m': Mem, zones: seq<nat>, refs: seq<nat>, i: nat)
    requires Threaded(m, zones, refs) && 1 <= i < |zones| && |m'| == |m|
    requires m'[zones[i - 1]][0] == NextZone(zones, i) + refs[i - 1]
    requires forall k :: 0 <= k < |zones| && k != i && k != i - 1 ==> m'[zones[k]][0] == m[zones[k]][0]
    ensures Threaded(m', Without(zones, i), Without(refs, i))
  {
    var zs, rs := Without(zones, i), Without(refs, i);
    forall k | 0 <= k < |zs| ensures ThreadAt(m', zs, rs, k) {
      var o := if k < i then k else k + 1;
      assert ThreadAt(m, zones, refs, o);
      assert k == i - 1 ==> NextZone(zs, k) == NextZone(zones, i);
      assert k != i - 1 ==> NextZone(zs, k) == NextZone(zones, o);
    }
  }

  /** What releasing zone `i` does: its predecessor skips it, and its page is given to the pool. */
  ghost predicate Released(m: Mem, list: seq<nat>, zones: seq<nat>, refs: seq<nat>, i: nat, m': Mem, list': seq<nat>)
    requires 1 <= i < |zones| == |refs|
  {
    && zones[i - 1] < |m|
    && GiveStep(Put(m, zones[i - 1], 0, NextZone(zones, i) + refs[i - 1]), list, zones[i], 1, m', list')
  }

  /** After a release the pool has gained exactly that page, and the chain is threaded without it. */
  lemma ReleaseThreaded(m: Mem, list: seq<nat>, zones: seq<nat>, refs: seq<nat>, i: nat, m': Mem, list': seq<nat>)
    requires Threaded(m, zones, refs) && 1 <= i < |zones| && Elems(zones) !! Elems(list)
    requires Released(m, list, zones, refs, i, m', list')
    ensures Threaded(m', Without(zones, i), Without(refs, i))
    ensures Elems(list') == Elems(list) + {zones[i]}
    ensures SameOutside(m, m', Elems(list) + {zones[i], zones[i - 1]})
  {
    RegionElems(zones[i], 1);
    assert Elems(Region(zones[i], 1)) == {zones[i]};
    forall k | 0 <= k < |zones| && k != i ensures zones[k] !in Elems(list') {
      assert zones[k] in Elems(zones);
    }
    Unthread(m, m', zones, refs, i);
  }

  /** `Zone::free_self`. */
  method FreeSelf(pool: Pool, drop: Zone, prev: Zone, ghost zones: seq<nat>, ghost refs: seq<nat>, ghost i: nat)
    requires pool.Valid() && Threaded(pool.ram.pages, zones, refs) && 1 <= i < |zones| && refs[i] == 0
    requires InRange(zones, PageNo(pool.bottom), PageNo(pool.top)) && Elems(zones) !! Elems(pool.list)
    requires drop == Zone(4096 * zones[i], pool.ram.pages[zones[i]][0])
    requires prev == Zone(4096 * zones[i - 1], pool.ram.pages[zones[i - 1]][0])
    modifies pool, pool.ram
    ensures pool.Valid()
    ensures Released(old(pool.ram.pages), old(pool.list), zones, refs, i, pool.ram.pages, pool.list)
  {
    ghost var m := pool.ram.pages;
    ThreadWord(m, zones, refs, i);
    ThreadWord(m, zones, refs, i - 1);
    assert GetRefs(drop.next) == 0;
    Locate(zones[i - 1], 0);
    Locate(zones[i], 0);
    pool.ram.Store(prev.base, PackZone(GetNext(drop.next), GetRefs(prev.next)));
    assert zones[i - 1] in Elems(zones) && zones[i] in Elems(zones);
    LinkedFrame(m, pool.ram.pages, pool.list, {zones[i - 1]});
    NotFreeApart(pool.list, zones[i]);
    var r := pool.Pfree(drop.base);
  }

  lemma NotFreeApart(list: seq<nat>, p: nat)
    requires p !in Elems(list)
    ensures Apart(list, p, 1)
  {
    forall i | 0 <= i < |list| ensures !(p <= list[i] < p + 1) {
      assert list[i] in Elems(list);
    }
  }

  /** `shrink_pool`: releases a zone without chunks in use, unless it is the first one. The walk
      always meets the zone, so the panic after it is out of reach. */
  method ShrinkPool(pool: Pool, head: nat, drop: Zone, ghost zones: seq<nat>, ghost refs: seq<nat>, ghost i: nat)
    requires pool.Valid() && Threaded(pool.ram.pages, zones, refs) && i < |zones| && refs[i] == 0
    requires InRange(zones, PageNo(pool.bottom), PageNo(pool.top)) && Elems(zones) !! Elems(pool.list)
    requires head == 4096 * zones[0] && drop == Zone(4096 * zones[i], pool.ram.pages[zones[i]][0])
    modifies pool, pool.ram
    ensures pool.Valid()
    ensures i == 0 ==> pool.ram.pages == old(pool.ram.pages) && pool.list == old(pool.list)
    ensures i > 0 ==> Released(old(pool.ram.pages), old(pool.list), zones, refs, i, pool.ram.pages, pool.list)
  {
    if drop.base != head {
      assert i > 0;
      var currPtr := head;
      ghost var k := 0;
      while true
        invariant k < i && currPtr == 4096 * zones[k]
        invariant pool.Valid() && pool.ram.pages == old(pool.ram.pages) && pool.list == old(pool.list)
        decreases i - k
      {
        ThreadWord(pool.ram.pages, zones, refs, k);
        Locate(zones[k], 0);
        var currZone := Zone(currPtr, pool.ram.Load(currPtr));
        var next := GetNext(currZone.next);
        assert next == 4096 * zones[k + 1] != 0;
        if drop.base == next {
          assert k + 1 == i;
          FreeSelf(pool, drop, currZone, zones, refs, i);
          return;
        }
        currPtr, k := next, k + 1;
      }
    }
  }

  function RefsOf(chunks: seq<seq<Chunk>>): (refs: seq<nat>)
    ensures |refs| == |chunks| && forall k :: 0 <= k < |chunks| ==> refs[k] == Used(chunks[k])
  {
    seq(|chunks|, k requires 0 <= k < |chunks| => Used(chunks[k]))
  }

  /** A chain whose zone `i` has had one taken off its count is still threaded. */
  lemma ChainThreads(m: Mem, zones: seq<nat>, chunks: seq<seq<Chunk>>, i: nat)
    requires Chain(m, zones, chunks) && i < |zones| && Used(chunks[i]) >= 1
    ensures var u := Used(chunks[i]) - 1;
      Threaded(Put(m, zones[i], 0, NextZone(zones, i) + u), zones, RefsOf(chunks)[i := u])
  {
    var u := Used(chunks[i]) - 1;
    var m', refs := Put(m, zones[i], 0, NextZone(zones, i) + u), RefsOf(chunks)[i := u];
    forall k | 0 <= k < |zones| ensures ThreadAt(m', zones, refs, k) && refs[k] < 4096 {
      assert ZoneAt(m, zones, chunks, k);
      ZoneWord(m[zones[k]], NextZone(zones, k), chunks[k]);
    }
  }

  /** The chain and the pool once zone `i`, with one chunk in use, has been released. */
  lemma ReleaseChain(m: Mem, list: seq<nat>, zones: seq<nat>, chunks: seq<seq<Chunk>>, i: nat, m': Mem, list': seq<nat>)
    requires Chain(m, zones, chunks) && 1 <= i < |zones| && Used(chunks[i]) == 1
    requires Elems(zones) !! Elems(list)
    requires Released(Put(m, zones[i], 0, NextZone(zones, i)), list, zones, RefsOf(chunks)[i := 0], i, m', list')
    ensures Chain(m', Without(zones, i), Without(chunks, i))
    ensures Elems(list') == Elems(list) + {zones[i]} && Elems(Without(zones, i)) == Elems(zones) - {zones[i]}
  {
    ChainThreads(m, zones, chunks, i);
    ReleaseThreaded(Put(m, zones[i], 0, NextZone(zones, i)), list, zones, RefsOf(chunks)[i := 0], i, m', list');
    forall k | 0 <= k < |zones| && k != i ensures zones[k] !in Elems(list') {
      assert zones[k] in Elems(zones);
    }
    ChainDrop(m, m', zones, chunks, i);
    WithoutElems(zones, i);
  }

  lemma WithoutElems(zones: seq<nat>, i: nat)
    requires i < |zones| && Distinct(zones)
    ensures Elems(Without(zones, i)) == Elems(zones) - {zones[i]}
  {
    assert zones == zones[..i] + [zones[i]] + zones[i + 1..];
  }

  /** The links of the free pages are those of the list, whatever the rest of the pages holds. */
  ghost predicate LinksIntact(m: Mem, list: seq<nat>) {
    forall i :: 0 <= i < |list| ==>
      list[i] < |m| && m[list[i]][0] == PrevLink(list, i) && m[list[i]][1] == NextLink(list, i)
  }

  /** A non-zero word below 4096 written past the first word of a free page breaks the free list. At
      word 1 it takes the place of the page's next link; behind, the links stay as they are, and it is
      a page that must be zero and is not. */
  lemma LateWriteBreaks(m: Mem, list: seq<nat>, q: nat, k: nat, v: nat)
    requires Linked(m, list) && q in list && q < |m| && 1 <= k < 512 && 0 < v < 4096
    ensures !Linked(Put(m, q, k, v), list)
    ensures LinksIntact(Put(m, q, k, v), list) <==> k >= 2
  {
    var i :| 0 <= i < |list| && list[i] == q;
    var m' := Put(m, q, k, v);
    Relink(PrevLink(list, i), NextLink(list, i), 0);
    assert m'[q][k] == v;
    assert NextLink(list, i) % 4096 == 0;
    assert !LinkedAt(m', list, i);
    if k >= 2 {
      forall j | 0 <= j < |list|
        ensures m'[list[j]][0] == PrevLink(list, j) && m'[list[j]][1] == NextLink(list, j)
      {
        assert LinkedAt(m, list, j);
      }
    } else {
      assert LinkedAt(m, list, i);
    }
  }

  /** Memory `m'` after the late header write: the chain and the pool are in order in `m`, where
      page `q` is free, and the write puts the size of `b` into that page. */
  ghost predicate LateWritten(m: Mem, list: seq<nat>, zones: seq<nat>, chunks: seq<seq<Chunk>>,
                              q: nat, b: Block, m': Mem)
  {
    && Chain(m, zones, chunks) && Sorted(list) && Linked(m, list) && q in list
    && q < |m| && 2 <= b.start < 512 && m' == Put(m, q, b.start - 1, 8 * b.words)
    && !Linked(m', list) && (LinksIntact(m', list) <==> b.start > 2)
  }

  // ---- free, within a zone ----

  /** `b` is the live payload of the chunk between `pre` and `post`. */
  ghost predicate SplitAt(cs: seq<Chunk>, b: Block, pre: seq<Chunk>, post: seq<Chunk>) {
    cs == pre + [Chunk(b.words, true)] + post && b.start == 2 + Span(pre)
  }

  lemma SplitBlock(z: Page, nx: nat, cs: seq<Chunk>, b: Block) returns (pre: seq<Chunk>, post: seq<Chunk>)
    requires ZoneOk(z, nx, cs) && b in Blocks(1, cs)
    ensures SplitAt(cs, b, pre, post) && b.words >= 1
    ensures b.start + b.words + Span(post) == 512 && (post != [] ==> b.start + b.words < 512)
    ensures z[b.start - 1] == Hdr(Chunk(b.words, true))
    ensures post != [] ==>
      z[b.start + b.words] == Hdr(post[0]) && b.start + b.words + 1 + post[0].words <= 512
    ensures Used(cs) >= 1
  {
    var i := FindChunk(1, cs, b);
    pre, post := cs[..i], cs[i + 1..];
    assert cs == pre + [cs[i]] + post;
    Place(z, pre, cs[i], post);
    Cat3(z, 1, pre, [cs[i]], post);
    One(z, 1, cs[i]);
  }

  /** The first half of `free`: finds the zone by rounding the pointer down to a page, checks the
      chunk is in use, and takes one off the zone's count. */
  method Unmark(ram: Ram, ptr: nat, ghost p: nat, ghost nx: nat, ghost cs: seq<Chunk>, ghost b: Block)
    returns (zone: Zone, header: nat, count: nat)
    requires p < |ram.pages| && ZoneOk(ram.pages[p], nx, cs) && b in Blocks(1, cs)
    requires ptr == 4096 * p + 8 * b.start
    modifies ram
    ensures Used(cs) >= 1 && count == Used(cs) - 1 && 2 <= b.start < b.start + b.words <= 512
    ensures ram.pages == Put(old(ram.pages), p, 0, nx + count)
    ensures zone == Zone(4096 * p, nx + count) && header == Hdr(Chunk(b.words, false))
  {
    ghost var pre, post := SplitBlock(ram.pages[p], nx, cs, b);
    ZoneWord(ram.pages[p], nx, cs);
    PageBase(ptr, p, b.start);
    Locate(p, 0);
    Locate(p, b.start - 1);
    HdrFields(Chunk(b.words, true), 0);
    var base := PageAlignDown(ptr);
    var word := ram.Load(base);
    var fields := ram.Load(ptr - HEADER_SIZE);
    assert !IsFree(fields);
    header := SetUnused(fields);
    count := GetRefs(word) - 1;
    zone := Zone(base, PackZone(GetNext(word), count));
    ram.Store(base, zone.next);
  }

  /** Rounding a live pointer down to a page recovers its zone. */
  lemma PageBase(ptr: nat, p: nat, k: nat)
    requires ptr == 4096 * p + 8 * k && k < 512
    ensures PageAlignDown(ptr) == 4096 * p
  {
    assert ptr % 4096 == 8 * k;
  }

  /** The second half of `free` when the zone stays: merges the chunk with the next one if that is
      free and in the zone, and writes its header. */
  method FreeInPlace(ram: Ram, ptr: nat, header: nat, zone: Zone, merge: bool,
                     ghost p: nat, ghost z: Page, ghost nx: nat, ghost cs: seq<Chunk>, ghost b: Block)
    returns (ghost cs': seq<Chunk>)
    requires p + 1 < |ram.pages| && ZoneOk(z, nx, cs) && b in Blocks(1, cs)
    requires Used(cs) >= 1 && ram.pages[p] == z[0 := nx + Used(cs) - 1]
    requires ptr == 4096 * p + 8 * b.start && zone.base == 4096 * p && header == Hdr(Chunk(b.words, false))
    requires merge <==> Used(cs) > 1
    modifies ram
    ensures |ram.pages| == |old(ram.pages)| && ram.pages == old(ram.pages)[p := ram.pages[p]]
    ensures FreedExactly(z, nx, cs, b, ram.pages[p], cs')
  {
    ghost var pre, post := SplitBlock(z, nx, cs, b);
    Locate(p, b.start - 1);
    var head, merged := header, false;
    if merge {
      head, merged := MergeNext(ram, ptr, header, zone, p, pre, b.words, post);
    }
    assert ram.pages[p] == if merged then z[0 := z[0] - 1][b.start + b.words := 0] else z[0 := z[0] - 1];
    ram.Store(ptr - HEADER_SIZE, head);
    cs' := FreedZone(z, nx, cs, b, pre, post, merged, ram.pages[p]);
  }

  /** The zone after the writes of `free`. */
  lemma FreedZone(z: Page, nx: nat, cs: seq<Chunk>, b: Block, pre: seq<Chunk>, post: seq<Chunk>, merged: bool, z': Page)
    returns (cs': seq<Chunk>)
    requires ZoneOk(z, nx, cs) && SplitAt(cs, b, pre, post) && Used(cs) >= 1 && b.words >= 1
    requires b.start + b.words + Span(post) == 512 && (post != [] ==> b.start + b.words < 512)
    requires merged <==> Used(cs) > 1 && post != [] && !post[0].used
    requires z' == if merged then
        z[0 := z[0] - 1][b.start + b.words := 0][b.start - 1 := 8 * (b.words + 1 + post[0].words)]
      else z[0 := z[0] - 1][b.start - 1 := 8 * b.words]
    ensures FreedExactly(z, nx, cs, b, z', cs')
  {
    if merged {
      cs' := pre + [Chunk(b.words + 1 + post[0].words, false)] + post[1..];
      assert cs == pre + [Chunk(b.words, true), post[0]] + post[1..];
      FreeMerged(z, z', nx, pre, b.words, post[0], post[1..]);
    } else {
      cs' := pre + [Chunk(b.words, false)] + post;
      FreeAlone(z, z', nx, pre, b.words, post);
    }
    FreedHere(z, nx, cs, b, pre, post, merged, z', cs');
  }

  /** The chunk between `pre` and `post` has been freed as the code frees it. */
  lemma FreedHere(z: Page, nx: nat, cs: seq<Chunk>, b: Block, pre: seq<Chunk>, post: seq<Chunk>, merged: bool, z': Page, cs': seq<Chunk>)
    requires SplitAt(cs, b, pre, post) && z[0] == nx + Used(cs) && Used(cs) >= 1
    requires b.start >= 2 && b.start + b.words <= 512 && (post != [] ==> b.start + b.words < 512)
    requires merged <==> Used(cs) > 1 && post != [] && !post[0].used
    requires cs' == if merged then pre + [Chunk(b.words + 1 + post[0].words, false)] + post[1..]
                    else pre + [Chunk(b.words, false)] + post
    requires z' == if merged then
        z[0 := z[0] - 1][b.start + b.words := 0][b.start - 1 := 8 * (b.words + 1 + post[0].words)]
      else z[0 := z[0] - 1][b.start - 1 := 8 * b.words]
    ensures FreedBy(z, cs, b, |pre|, z', cs')
  {
    var i := |pre|;
    assert cs[..i] == pre && cs[i + 1..] == post && cs[i] == Chunk(b.words, true);
    if post != [] {
      assert cs[i + 1] == post[0] && cs[i + 2..] == post[1..];
    }
  }

  /** The forward merge of `free`: reads the word after the chunk, which may lie past the zone,
      before it checks that it does not. */
  method MergeNext(ram: Ram, ptr: nat, header: nat, zone: Zone,
                   ghost p: nat, ghost pre: seq<Chunk>, ghost n: nat, ghost post: seq<Chunk>)
    returns (head: nat, merged: bool)
    requires p + 1 < |ram.pages| && 2 + Span(pre) + n + Span(post) == 512
    requires post != [] ==>
      && 2 + Span(pre) + n < 512 && ram.pages[p][2 + Span(pre) + n] == Hdr(post[0])
      && 3 + Span(pre) + n + post[0].words <= 512
    requires ptr == 4096 * p + 8 * (2 + Span(pre)) && zone.base == 4096 * p && header == Hdr(Chunk(n, false))
    modifies ram
    ensures !merged ==> head == header && ram.pages == old(ram.pages)
    ensures merged <==> post != [] && !post[0].used
    ensures merged ==>
      head == Hdr(Chunk(n + 1 + post[0].words, false)) && ram.pages == Put(old(ram.pages), p, 2 + Span(pre) + n, 0)
  {
    HdrFields(Chunk(n, false), 0);
    NextAddr(p, Span(pre), n);
    assert post == [] ==> Span(post) == 0;
    var nextPtr := ptr + ChunkSize(header);
    var next := ram.Load(nextPtr);
    if post != [] {
      HdrFields(post[0], 0);
      HdrFields(Chunk(n, false), n + 1 + post[0].words);
    }
    head, merged := header, IsFree(next) && nextPtr < zone.base + 0x1000;
    if merged {
      head := SetSize(header, ChunkSize(header) + HEADER_SIZE + ChunkSize(next));
      ram.Store(nextPtr, 0);
    }
  }
}
