/** The sub-page allocator: a chain of zones, grown and shrunk a page at a time. */
module SmallAlloc {
  import opened Memory
  import opened Bits
  import opened FreeList
  import opened PagePool
  import opened Chunks
  import opened FirstFit
  import opened Headers
  import opened Zones
  import opened ZoneChain
  import opened ZoneRelease

  /** `Corrupt`: the scan has run past the end of the zone, and has broken it. */
  datatype KallocResult = Ptr(ptr: nat) | Void | OOM | Corrupt

  /** The next multiple of eight. */
  function RoundUp(size: nat): (r: nat)
    ensures r % 8 == 0 && size <= r < size + 8
    ensures r == 8 * Words(size)
  {
    Pow2Values();
    HighBits(size + 7, 3);
    if size % 8 != 0 then AndNot(size + 7, 7) else size
  }

  class Kalloc {
    const pool: Pool
    const head: nat
    const end: nat
    ghost var zones: seq<nat>
    ghost var chunks: seq<seq<Chunk>>

    /** The zones are pages of the pool, apart from the free ones. */
    ghost predicate Placed()
      reads this, pool
    {
      && InRange(zones, PageNo(pool.bottom), PageNo(pool.top))
      && Elems(zones) !! Elems(pool.list)
    }

    ghost predicate Valid()
      reads this, pool, pool.ram
    {
      && pool.Valid() && PageNo(pool.top) < |pool.ram.pages|
      && zones != [] && head == 4096 * zones[0] && end == head + 4096
      && Placed() && Chain(pool.ram.pages, zones, chunks)
    }

    /** `Kalloc::new`: the page `start` becomes a zone of one free chunk, whatever it held. */
    constructor (pool: Pool, start: nat)
      requires pool.Valid() && PageNo(pool.top) < |pool.ram.pages|
      requires start % 4096 == 0 && pool.bottom <= start < pool.top && PageNo(start) !in pool.list
      modifies pool.ram
      ensures this.pool == pool && Valid() && pool.Valid()
      ensures zones == [PageNo(start)] && chunks == [[Chunk(510, false)]]
      ensures SameOutside(old(pool.ram.pages), pool.ram.pages, {PageNo(start)})
    {
      this.pool, head, end := pool, start, start + 0x1000;
      zones, chunks := [PageNo(start)], [[Chunk(510, false)]];
      new;
      WriteZoneHeaderPair(pool.ram, Zone(start, 0), MAX_CHUNK_SIZE);
      LinkedFrame(old(pool.ram.pages), pool.ram.pages, pool.list, {PageNo(start)});
      FreshZone(pool.ram.pages[PageNo(start)]);
      assert ZoneAt(pool.ram.pages, zones, chunks, 0);
    }

    ghost function LiveNow(): set<LiveBlock>
      requires |zones| == |chunks|
      reads this
    {
      Live(zones, chunks)
    }

    /** Rewrites the page of zone `i` in the ghost view, once memory holds it. */
    ghost method Reshape(m: Mem, i: nat, cs: seq<Chunk>)
      requires Chain(m, zones, chunks) && i < |zones|
      requires pool.Geometry() && Sorted(pool.list) && Linked(m, pool.list)
      requires |pool.ram.pages| == |m| && pool.ram.pages == m[zones[i] := pool.ram.pages[zones[i]]]
      requires ZoneOk(pool.ram.pages[zones[i]], NextZone(zones, i), cs) && Placed()
      modifies this`chunks
      ensures chunks == old(chunks)[i := cs] && Chain(pool.ram.pages, zones, chunks)
      ensures Linked(pool.ram.pages, pool.list)
    {
      ChainUpdate(m, zones, chunks, i, pool.ram.pages[zones[i]], cs);
      LinkedFrame(m, pool.ram.pages, pool.list, {zones[i]});
      chunks := chunks[i := cs];
    }

    /** Scans the first zone. */
    method ScanHead(zone: Zone, size: nat) returns (r: ScanResult, ghost j: nat)
      requires Valid() && zone == Zone(head, pool.ram.pages[zones[0]][0]) && size % 8 == 0 && size >= 8
      modifies this`chunks, pool.ram
      ensures |chunks| == |zones| && (!r.Overrun? ==> Valid())
      ensures HeadScanned(old(pool.ram.pages), pool.list, zones, old(chunks), size / 8, r, j, pool.ram.pages, chunks)
    {
      ghost var m, nx, cs' := pool.ram.pages, NextZone(zones, 0), [];
      assert ZoneAt(m, zones, chunks, 0);
      r, cs', j := Scan(pool.ram, zone, size, zones[0], nx, chunks[0]);
      if !r.Overrun? {
        Reshape(m, 0, cs');
        ScanLive(m, zones, old(chunks), nx, size / 8, r, pool.ram.pages, cs', j);
      }
    }

    /** `Zone::write_next` on zone `i`. */
    method WriteNextZone(zone: Zone, next: nat, ghost i: nat)
      requires Valid() && i < |zones| && zone == Zone(4096 * zones[i], pool.ram.pages[zones[i]][0])
      requires next % 4096 == 0
      modifies pool.ram
      ensures pool.ram.pages == Put(old(pool.ram.pages), zones[i], 0, next + Used(chunks[i]))
    {
      assert ZoneAt(pool.ram.pages, zones, chunks, i);
      ZoneWord(pool.ram.pages[zones[i]], NextZone(zones, i), chunks[i]);
      Locate(zones[i], 0);
      pool.ram.Store(zone.base, PackZone(next, GetRefs(zone.next)));
    }

    /** `grow_pool`: a page of the pool becomes the zone after `tail`, the last one. */
    method GrowPool(tail: Zone) returns (r: Option<Zone>)
      requires Valid()
      requires var l := zones[|zones| - 1]; tail == Zone(4096 * l, pool.ram.pages[l][0])
      modifies this, pool, pool.ram
      ensures Valid()
      ensures old(pool.list) == [] ==>
        && r == None && zones == old(zones) && chunks == old(chunks)
        && pool.list == old(pool.list) && pool.ram.pages == old(pool.ram.pages)
      ensures old(pool.list) != [] ==>
        && r == Some(Zone(4096 * old(pool.list)[0], 0)) && pool.list == old(pool.list)[1..]
        && zones == old(zones) + [old(pool.list)[0]] && chunks == old(chunks) + [[Chunk(510, false)]]
        && Grown(old(pool.ram.pages), old(pool.list), old(zones)[|old(zones)| - 1], pool.ram.pages)
    {
      var page := pool.Palloc();
      if page.OutOfPages? {
        return None;
      }
      ghost var m1, l, g := pool.ram.pages, |zones| - 1, old(pool.list)[0];
      TakeKeepsChain(old(pool.ram.pages), old(pool.list), m1, zones, chunks);
      WriteNextZone(tail, page.addr, l);
      WriteZoneHeaderPair(pool.ram, Zone(page.addr, 0), MAX_CHUNK_SIZE);
      GrowFacts(old(pool.ram.pages), old(pool.list), m1, zones, chunks, pool.ram.pages);
      zones, chunks := zones + [g], chunks + [[Chunk(510, false)]];
      return Some(Zone(page.addr, 0));
    }

    /** The growing branch of `alloc`: the new zone serves the request from its first chunk. */
    method AllocInNewZone(trail: Zone, size: nat) returns (r: KallocResult, ghost grown: Mem)
      requires Valid() && size % 8 == 0 && 8 <= size <= MAX_CHUNK_SIZE
      requires var l := zones[|zones| - 1]; trail == Zone(4096 * l, pool.ram.pages[l][0])
      modifies this, pool, pool.ram
      ensures Valid()
      ensures old(pool.list) == [] ==>
        && r == OOM && zones == old(zones) && chunks == old(chunks)
        && pool.list == old(pool.list) && pool.ram.pages == old(pool.ram.pages)
      ensures old(pool.list) != [] ==>
        && r == Ptr(4096 * old(pool.list)[0] + 16) && pool.list == old(pool.list)[1..]
        && zones == old(zones) + [old(pool.list)[0]]
        && chunks == old(chunks) + [Carved(Chunk(510, false), size / 8)]
        && Grown(old(pool.ram.pages), old(pool.list), old(zones)[|old(zones)| - 1], grown)
        && SameOutside(grown, pool.ram.pages, {old(pool.list)[0]})
    {
      var zone := GrowPool(trail);
      grown := pool.ram.pages;
      match zone {
        case None =>
          r := OOM;
        case Some(zone) =>
          var ptr := ServeFresh(zone, size);
          r := Ptr(ptr);
      }
    }

    /** One round of the loop of `alloc`, on the first zone. */
    method AllocRound(zone: Zone, trail: Zone, rounded: nat)
      returns (r: Option<KallocResult>, next: Zone, ghost j: nat)
      requires Valid() && zone == trail == Zone(head, pool.ram.pages[zones[0]][0])
      requires rounded % 8 == 0 && 8 <= rounded <= MAX_CHUNK_SIZE
      modifies this, pool, pool.ram
      ensures Answered(old(pool.ram.pages), old(pool.list), old(zones), old(chunks), r.GetOr(OOM), rounded / 8,
                   pool.ram.pages, pool.list, zones, chunks)
      ensures r != Some(Corrupt) ==> Valid()
      ensures AllocResult(old(pool.ram.pages), old(pool.list), old(zones), old(chunks), rounded / 8, r.GetOr(OOM), j)
      ensures ChunksAfter(old(pool.list), old(chunks), rounded / 8, r.GetOr(OOM), j, chunks)
      ensures r.None? && head == pool.bottom ==> next.base > head
    {
      var s;
      s, j := ScanHead(zone, rounded);
      next := zone;
      ghost var m, cs := pool.ram.pages, chunks;
      match s {
        case Found(ptr) =>
          r := Some(Ptr(ptr));
        case Overrun(_, _) =>
          r := Some(Corrupt);
        case NotFound =>
          r, next := NextOrGrow(zone, trail, rounded);
          RoundDone(old(pool.ram.pages), m, old(pool.list), old(zones), old(chunks), cs, r.GetOr(OOM), rounded / 8,
                    pool.ram.pages, pool.list, zones, chunks);
          RoundChunks(old(pool.list), old(chunks), rounded / 8, r.GetOr(OOM), j, chunks);
      }
    }

    /** A round that has found nothing in the first zone goes on to the next one, or grows the chain. */
    method NextOrGrow(zone: Zone, trail: Zone, rounded: nat) returns (r: Option<KallocResult>, next: Zone)
      requires Valid() && zone == trail == Zone(head, pool.ram.pages[zones[0]][0])
      requires rounded % 8 == 0 && 8 <= rounded <= MAX_CHUNK_SIZE
      modifies this, pool, pool.ram
      ensures Valid() && TailKept(old(zones), old(chunks), zones, chunks)
      ensures chunks == old(chunks) +
        if |old(zones)| >= 2 || old(pool.list) == [] then [] else [Carved(Chunk(510, false), rounded / 8)]
      ensures Served(old(pool.ram.pages), old(pool.list), old(zones), old(LiveNow()), r.GetOr(OOM), rounded / 8,
                     pool.ram.pages, pool.list, zones, LiveNow())
      ensures r.GetOr(OOM) ==
        if |old(zones)| >= 2 || old(pool.list) == [] then OOM else Ptr(4096 * old(pool.list)[0] + 16)
      ensures r.None? && head == pool.bottom ==> next.base > head
    {
      ZoneWordAt(pool.ram.pages, zones, chunks, 0);
      next := zone;
      var nextAddr := GetNext(zone.next);
      if nextAddr != 0 {
        Locate(zones[1], 0);
        next := Zone(nextAddr, pool.ram.Load(nextAddr));
        assert zones[0] != zones[1];
        r := None;
      } else {
        ghost var m, grown := pool.ram.pages, [];
        var res;
        res, grown := AllocInNewZone(trail, rounded);
        NewZoneServed(m, old(pool.list), old(zones), old(chunks), grown, pool.ram.pages, rounded / 8);
        CarvedFacts(ZeroPage(), 1, Chunk(510, false), rounded / 8);
        r := Some(res);
      }
    }

    /** `alloc`, when the first zone is the lowest page of the pool. A second zone is above the
        bound of the loop, so it is never scanned. */
    method Alloc(size: nat) returns (r: KallocResult, ghost j: nat)
      requires Valid() && head == pool.bottom && size <= MAX_CHUNK_SIZE
      modifies this, pool, pool.ram
      ensures Valid() <==> r != Corrupt
      ensures size == 0 <==> r == Void
      ensures Answered(old(pool.ram.pages), old(pool.list), old(zones), old(chunks), r, Words(size),
                   pool.ram.pages, pool.list, zones, chunks)
      ensures size > 0 ==>
        && AllocResult(old(pool.ram.pages), old(pool.list), old(zones), old(chunks), Words(size), r, j)
        && ChunksAfter(old(pool.list), old(chunks), Words(size), r, j, chunks)
      ensures r.Ptr? ==> |zones| == |chunks| && SizedBlock(old(LiveNow()), LiveNow(), r.ptr, size)
    {
      j := 0;
      if size == 0 {
        return Void, j;
      }
      var rounded := RoundUp(size);
      r, j := AllocLoop(rounded);
      AnswerFacts(old(pool.ram.pages), old(pool.list), old(zones), old(chunks), r, size,
                  pool.ram.pages, pool.list, zones, chunks);
    }

    method AllocLoop(rounded: nat) returns (r: KallocResult, ghost j: nat)
      requires Valid() && head == pool.bottom && rounded % 8 == 0 && 8 <= rounded <= MAX_CHUNK_SIZE
      modifies this, pool, pool.ram
      ensures r != Corrupt ==> Valid()
      ensures Answered(old(pool.ram.pages), old(pool.list), old(zones), old(chunks), r, rounded / 8,
                   pool.ram.pages, pool.list, zones, chunks)
      ensures AllocResult(old(pool.ram.pages), old(pool.list), old(zones), old(chunks), rounded / 8, r, j)
      ensures ChunksAfter(old(pool.list), old(chunks), rounded / 8, r, j, chunks)
    {
      var bound := end - 0x1000;
      Locate(zones[0], 0);
      var zone := Zone(head, pool.ram.Load(head));
      var trail := zone;
      ghost var scanned := false;
      r, j := OOM, 0;
      while zone.base <= bound
        invariant !scanned ==>
          && Valid() && zones == old(zones) && chunks == old(chunks) && pool.list == old(pool.list)
          && pool.ram.pages == old(pool.ram.pages)
          && zone == trail == Zone(head, pool.ram.pages[zones[0]][0])
        invariant scanned ==> zone.base > bound && Valid() && r == OOM
        invariant scanned ==>
          Answered(old(pool.ram.pages), old(pool.list), old(zones), old(chunks), r, rounded / 8,
               pool.ram.pages, pool.list, zones, chunks)
        invariant scanned ==>
          AllocResult(old(pool.ram.pages), old(pool.list), old(zones), old(chunks), rounded / 8, r, j)
        invariant scanned ==> ChunksAfter(old(pool.list), old(chunks), rounded / 8, r, j, chunks)
        decreases !scanned
      {
        var round;
        round, zone, j := AllocRound(zone, trail, rounded);
        if round.Some? {
          return round.value, j;
        }
        scanned := true;
      }
    }

    /** Freeing empties a zone other than the first. */
    ghost predicate Empties(i: nat)
      requires i < |chunks|
      reads this
    {
      i > 0 && Used(chunks[i]) == 1
    }

    /** `free` of the live payload `b` of zone `i`. Unless it empties a zone other than the first,
        it is undone from the live payloads and nothing else. When it does, the zone has been
        released (`atRelease` is memory at that point), and the chunk's header is then written
        into a page that the pool already owns. */
    method Free(ptr: nat, ghost i: nat, ghost b: Block) returns (ghost atRelease: Mem)
      requires Valid() && i < |zones| && b in Blocks(1, chunks[i]) && ptr == 4096 * zones[i] + 8 * b.start
      modifies this, pool, pool.ram
      ensures !old(Empties(i)) ==>
        && Valid() && zones == old(zones) && chunks == old(chunks)[i := chunks[i]] && pool.list == old(pool.list)
        && pool.ram.pages == old(pool.ram.pages)[zones[i] := pool.ram.pages[zones[i]]]
        && FreedExactly(old(pool.ram.pages)[zones[i]], NextZone(zones, i), old(chunks)[i], b, pool.ram.pages[zones[i]], chunks[i])
      ensures old(Empties(i)) ==>
        && zones == Without(old(zones), i) && chunks == Without(old(chunks), i)
        && Elems(pool.list) == Elems(old(pool.list)) + {old(zones)[i]}
        && LateWritten(atRelease, pool.list, zones, chunks, old(zones)[i], b, pool.ram.pages)
        && !pool.Valid()
    {
      ghost var m, p, nx := pool.ram.pages, zones[i], NextZone(zones, i);
      assert ZoneAt(m, zones, chunks, i);
      var zone, header, count := Unmark(pool.ram, ptr, p, nx, chunks[i], b);
      LinkedFrame(m, pool.ram.pages, pool.list, {p});
      atRelease := m;
      if count == 0 && zone.base != head {
        atRelease := Release(ptr, header, zone, m, i, b);
      } else {
        ghost var cs := FreeInPlace(pool.ram, ptr, header, zone, count != 0, p, m[p], nx, chunks[i], b);
        Reshape(m, i, cs);
      }
    }

    /** The branch of `free` for a zone that has become empty and is not the first. */
    method Release(ptr: nat, header: nat, zone: Zone, ghost m: Mem, ghost i: nat, ghost b: Block)
      returns (ghost atRelease: Mem)
      requires pool.Valid() && Placed() && Chain(m, zones, chunks) && 1 <= i < |zones| && Used(chunks[i]) == 1
      requires head == 4096 * zones[0] && zone == Zone(4096 * zones[i], NextZone(zones, i))
      requires pool.ram.pages == Put(m, zones[i], 0, NextZone(zones, i))
      requires 2 <= b.start < b.start + b.words <= 512
      requires ptr == 4096 * zones[i] + 8 * b.start && header == Hdr(Chunk(b.words, false))
      modifies this, pool, pool.ram
      ensures zones == Without(old(zones), i) && chunks == Without(old(chunks), i)
      ensures Elems(pool.list) == Elems(old(pool.list)) + {old(zones)[i]}
      ensures LateWritten(atRelease, pool.list, zones, chunks, old(zones)[i], b, pool.ram.pages)
      ensures !pool.Valid()
    {
      ChainThreads(m, zones, chunks, i);
      ShrinkPool(pool, head, zone, zones, RefsOf(chunks)[i := 0], i);
      atRelease := pool.ram.pages;
      ReleaseChain(m, old(pool.list), zones, chunks, i, atRelease, pool.list);
      assert zones[i] in Elems(pool.list);
      LateFacts(atRelease, pool.list, Without(zones, i), Without(chunks, i), zones[i], b);
      LateStore(ptr, header, zones[i], b);
      zones, chunks := Without(zones, i), Without(chunks, i);
    }

    /** The header write at the end of `free`, into a page that is free by now. */
    method LateStore(ptr: nat, header: nat, ghost p: nat, ghost b: Block)
      requires p < |pool.ram.pages| && 2 <= b.start < b.start + b.words <= 512
      requires ptr == 4096 * p + 8 * b.start && header == Hdr(Chunk(b.words, false))
      modifies pool.ram
      ensures pool.ram.pages == Put(old(pool.ram.pages), p, b.start - 1, 8 * b.words)
    {
      Locate(p, b.start - 1);
      pool.ram.Store(ptr - HEADER_SIZE, header);
    }

    method ServeFresh(zone: Zone, size: nat) returns (ptr: nat)
      requires Valid() && size % 8 == 0 && 8 <= size <= MAX_CHUNK_SIZE
      requires var l := |zones| - 1;
        zone == Zone(4096 * zones[l], 0) && chunks[l] == [Chunk(510, false)] && NextZone(zones, l) == 0
      modifies this`chunks, pool.ram
      ensures Valid() && ptr == zone.base + 16
      ensures chunks == old(chunks)[|zones| - 1 := Carved(Chunk(510, false), size / 8)]
      ensures SameOutside(old(pool.ram.pages), pool.ram.pages, {zones[|zones| - 1]})
    {
      ghost var m, i := pool.ram.pages, |zones| - 1;
      ghost var c := Chunk(510, false);
      ghost var cs := Carved(c, size / 8);
      var headPtr := zone.base + 8;
      assert ZoneAt(m, zones, chunks, i);
      One(m[zones[i]], 1, c);
      assert [] + [c] + [] == [c] && [] + cs + [] == cs;
      AllocChunk(pool.ram, size, headPtr, zone, MAX_CHUNK_SIZE, zones[i], 0, [], c, []);
      Reshape(m, i, cs);
      ptr := headPtr + HEADER_SIZE;
    }
  }

  /** What the late write does to a pool and a chain in order. */
  lemma LateFacts(m: Mem, list: seq<nat>, zones: seq<nat>, chunks: seq<seq<Chunk>>, q: nat, b: Block)
    ensures
      && Chain(m, zones, chunks) && Sorted(list) && Linked(m, list) && q in list && q < |m|
      && 2 <= b.start < b.start + b.words <= 512
      ==> LateWritten(m, list, zones, chunks, q, b, Put(m, q, b.start - 1, 8 * b.words))
  {
    if && Linked(m, list) && q in list && q < |m| && 2 <= b.start < b.start + b.words <= 512 {
      LateWriteBreaks(m, list, q, b.start - 1, 8 * b.words);
    }
  }

  /** What a request has done: it was served or refused, or it has overrun the first zone. */
  ghost predicate Answered(m: Mem, list: seq<nat>, zones: seq<nat>, chunks: seq<seq<Chunk>>, r: KallocResult, n: nat,
                       m': Mem, list': seq<nat>, zones': seq<nat>, chunks': seq<seq<Chunk>>)
    requires zones != [] && |chunks| == |zones|
  {
    if r == Corrupt then
      && list' == list && zones' == zones && chunks' == chunks
      && Overran(m, zones[0], NextZone(zones, 0), chunks[0], m')
    else
      && TailKept(zones, chunks, zones', chunks')
      && Served(m, list, zones, Live(zones, chunks), r, n, m', list', zones', Live(zones', chunks'))
  }

  /** After an overrun the chain is broken, whatever the chunks are taken to be. */
  lemma OverranInvalid(m: Mem, zones: seq<nat>, chunks: seq<seq<Chunk>>, m': Mem)
    requires zones != [] && |chunks| == |zones| && Overran(m, zones[0], NextZone(zones, 0), chunks[0], m')
    ensures forall cs :: !Chain(m', zones, cs)
  {
    forall cs ensures !Chain(m', zones, cs) {
      FirstZone(m', zones, cs);
    }
  }

  /** What an answer means: a block of the right length, or a broken chain. */
  lemma AnswerFacts(m: Mem, list: seq<nat>, zones: seq<nat>, chunks: seq<seq<Chunk>>, r: KallocResult, size: nat,
                    m': Mem, list': seq<nat>, zones': seq<nat>, chunks': seq<seq<Chunk>>)
    requires zones != [] && |chunks| == |zones| && |chunks'| == |zones'|
    ensures Answered(m, list, zones, chunks, r, Words(size), m', list', zones', chunks') ==>
      && (r.Ptr? ==> SizedBlock(Live(zones, chunks), Live(zones', chunks'), r.ptr, size))
      && (r == Corrupt ==> !Chain(m', zones', chunks'))
  {
    if Answered(m, list, zones, chunks, r, Words(size), m', list', zones', chunks') && r == Corrupt {
      OverranInvalid(m, zones, chunks, m');
    }
  }

  lemma FirstZone(m: Mem, zones: seq<nat>, chunks: seq<seq<Chunk>>)
    ensures zones != [] && Chain(m, zones, chunks) ==>
      zones[0] < |m| && ZoneOk(m[zones[0]], NextZone(zones, 0), chunks[0])
  {
    if zones != [] && Chain(m, zones, chunks) {
      assert ZoneAt(m, zones, chunks, 0);
    }
  }

  /** What a request leaves behind: the pages of the pool still accounted for, the live payloads
      untouched, and exactly one more of them when the request succeeds. */
  ghost predicate Served(m: Mem, list: seq<nat>, zones: seq<nat>, live: set<LiveBlock>, r: KallocResult, n: nat,
                         m': Mem, list': seq<nat>, zones': seq<nat>, live': set<LiveBlock>)
  {
    && Elems(list') + Elems(zones') == Elems(list) + Elems(zones)
    && SameOutside(m, m', Elems(zones) + Elems(list))
    && LiveKept(m, m', live)
    && (if r.Ptr? then Gains(live, live', r.ptr, n) else live' == live && zones' == zones && list' == list)
    && (|zones| <= 2 ==> |zones'| <= 2)
  }

  /** How a scan of the first zone for `n` words ends, from `m0` to `m`. */
  ghost predicate HeadScanned(m0: Mem, list: seq<nat>, zones: seq<nat>, chunks0: seq<seq<Chunk>>, n: nat,
                              r: ScanResult, j: nat, m: Mem, chunks: seq<seq<Chunk>>)
    requires zones != [] && |chunks0| == |zones| == |chunks| && zones[0] + 1 < |m0|
  {
    match r
    case Found(ptr) =>
      && Answered(m0, list, zones, chunks0, Ptr(ptr), n, m, list, zones, chunks)
      && AllocResult(m0, list, zones, chunks0, n, Ptr(ptr), j)
      && chunks == chunks0[0 := chunks[0]] && FitChunks(chunks0[0], n, j, chunks[0]) && !NoFit(chunks0[0], n)
    case Overrun(_, _) =>
      && Answered(m0, list, zones, chunks0, Corrupt, n, m, list, zones, chunks)
      && AllocResult(m0, list, zones, chunks0, n, Corrupt, j)
    case NotFound =>
      && NoFit(chunks0[0], n) && EndGuarded(m0, zones[0], chunks0[0])
      && SameOutside(m0, m, {zones[0]}) && zones[0] < |m| && m[zones[0]][0] == m0[zones[0]][0]
      && chunks == chunks0[0 := Coalesced(chunks0[0])]
      && LiveKept(m0, m, Live(zones, chunks0)) && Live(zones, chunks) == Live(zones, chunks0)
  }

  /** The chunks after a request for `n` words: carved out of the first fit, or coalesced, with a new zone behind
      them when there was none and a page for it. */
  ghost predicate ChunksAfter(list: seq<nat>, chunks: seq<seq<Chunk>>, n: nat, r: KallocResult, j: nat,
                              chunks': seq<seq<Chunk>>)
    requires chunks != [] && n <= 510
  {
    if r == Corrupt then chunks' == chunks
    else if !NoFit(chunks[0], n) then
      |chunks'| == |chunks| && chunks' == chunks[0 := chunks'[0]] && FitChunks(chunks[0], n, j, chunks'[0])
    else if |chunks| >= 2 || list == [] then chunks' == chunks[0 := Coalesced(chunks[0])]
    else chunks' == [Coalesced(chunks[0]), Carved(Chunk(510, false), n)]
  }

  lemma RoundChunks(list: seq<nat>, chunks: seq<seq<Chunk>>, n: nat, r: KallocResult, j: nat, chunks': seq<seq<Chunk>>)
    requires chunks != [] && n <= 510
    ensures
      && r != Corrupt && NoFit(chunks[0], n)
      && chunks' == chunks[0 := Coalesced(chunks[0])] +
           (if |chunks| >= 2 || list == [] then [] else [Carved(Chunk(510, false), n)])
      ==> ChunksAfter(list, chunks, n, r, j, chunks')
  {
    assert |chunks| == 1 ==> chunks[0 := Coalesced(chunks[0])] == [Coalesced(chunks[0])];
  }

  /** A round whose scan, from `m0` to `m`, has found nothing, and what came after. */
  lemma RoundDone(m0: Mem, m: Mem, list: seq<nat>, zones: seq<nat>, chunks0: seq<seq<Chunk>>, chunks: seq<seq<Chunk>>,
                  r: KallocResult, n: nat, m': Mem, list': seq<nat>, zones': seq<nat>, chunks': seq<seq<Chunk>>)
    requires zones != [] && |chunks0| == |zones| == |chunks| && chunks == chunks0[0 := chunks[0]]
    ensures
      && r != Corrupt && SameOutside(m0, m, {zones[0]})
      && LiveKept(m0, m, Live(zones, chunks0)) && Live(zones, chunks) == Live(zones, chunks0)
      && TailKept(zones, chunks, zones', chunks')
      && Served(m, list, zones, Live(zones, chunks), r, n, m', list', zones', Live(zones', chunks'))
      ==> Answered(m0, list, zones, chunks0, r, n, m', list', zones', chunks')
  {
    assert zones[0] in Elems(zones);
  }

  /** Serving a request of `n` words from a new zone after the only one. */
  lemma NewZoneServed(m: Mem, list: seq<nat>, zones: seq<nat>, chunks: seq<seq<Chunk>>, m1: Mem, m2: Mem, n: nat)
    ensures
      && Chain(m, zones, chunks) && |zones| == 1 && list != [] && Elems(zones) !! Elems(list)
      && Grown(m, list, zones[0], m1) && SameOutside(m1, m2, {list[0]}) && 1 <= n <= 510
      ==>
      Served(m, list, zones, Live(zones, chunks), Ptr(4096 * list[0] + 16), n,
             m2, list[1..], zones + [list[0]],
             Live(zones + [list[0]], chunks + [Carved(Chunk(510, false), n)]))
  {
    if && Chain(m, zones, chunks) && |zones| == 1 && list != [] && Elems(zones) !! Elems(list)
       && Grown(m, list, zones[0], m1) && SameOutside(m1, m2, {list[0]}) && 1 <= n <= 510 {
      GrownThen(m, list, zones, m1, m2);
      GrownKeeps(m, list, zones, chunks, m2);
      MoveElem(list, zones);
      assert list[0] in Elems(list) && zones[0] in Elems(zones);
      NewZoneLive(zones, chunks, list[0], n);
    }
  }

  /** The exact outcome of a request for `n` words. */
  ghost predicate AllocResult(m: Mem, list: seq<nat>, zones: seq<nat>, chunks: seq<seq<Chunk>>, n: nat,
                              r: KallocResult, j: nat)
    requires zones != [] && |chunks| == |zones| && zones[0] + 1 < |m|
  {
    var p, cs := zones[0], chunks[0];
    if !NoFit(cs, n) then FirstFitAt(cs, n, j) && r == Ptr(4096 * p + 8 * (2 + Span(cs[..j])))
    else if !EndGuarded(m, p, cs) then r == Corrupt
    else if |zones| >= 2 || list == [] then r == OOM
    else r == Ptr(4096 * list[0] + 16)
  }

  lemma ZoneWordAt(m: Mem, zones: seq<nat>, chunks: seq<seq<Chunk>>, i: nat)
    requires Chain(m, zones, chunks) && i < |zones|
    ensures GetNext(m[zones[i]][0]) == NextZone(zones, i) && GetRefs(m[zones[i]][0]) == Used(chunks[i])
  {
    assert ZoneAt(m, zones, chunks, i);
    ZoneWord(m[zones[i]], NextZone(zones, i), chunks[i]);
  }

  lemma GrownThen(m: Mem, list: seq<nat>, zones: seq<nat>, m1: Mem, m2: Mem)
    requires list != [] && zones != [] && Elems(zones) !! Elems(list)
    requires Grown(m, list, zones[|zones| - 1], m1) && SameOutside(m1, m2, {list[0]})
    ensures Grown(m, list, zones[|zones| - 1], m2)
  {
    assert list[0] in Elems(list) && zones[|zones| - 1] in Elems(zones);
  }

  lemma MoveElem(list: seq<nat>, zones: seq<nat>)
    requires list != []
    ensures Elems(list[1..]) + Elems(zones + [list[0]]) == Elems(list) + Elems(zones)
  {
    assert list == [list[0]] + list[1..];
  }

  lemma GrownKeeps(m: Mem, list: seq<nat>, zones: seq<nat>, chunks: seq<seq<Chunk>>, m': Mem)
    requires zones != [] && Chain(m, zones, chunks) && Elems(zones) !! Elems(list)
    requires Grown(m, list, zones[|zones| - 1], m')
    ensures LiveKept(m, m', Live(zones, chunks))
    ensures SameOutside(m, m', Elems(zones) + Elems(list))
  {
    forall l | l in Live(zones, chunks) && l.page < |m| ensures PayloadKept(m[l.page], m'[l.page], {l.block}) {
      var i :| 0 <= i < |zones| && zones[i] == l.page && l.block in Blocks(1, chunks[i]);
      assert zones[i] in Elems(zones);
      BlocksWithin(1, chunks[i]);
    }
    assert zones[|zones| - 1] in Elems(zones);
  }

  lemma NewZoneLive(zones: seq<nat>, chunks: seq<seq<Chunk>>, g: nat, n: nat)
    requires |zones| == |chunks| && Distinct(zones + [g]) && 1 <= n <= 510
    ensures Gains(Live(zones, chunks), Live(zones + [g], chunks + [Carved(Chunk(510, false), n)]), 4096 * g + 16, n)
  {
    var c := Chunk(510, false);
    var zs := zones + [g];
    assert zs[|zones|] == g;
    assert forall k :: 0 <= k < |zones| ==> zones[k] == zs[k] && zs[k] != g;
    One(ZeroPage(), 1, c);
    CarvedFacts(ZeroPage(), 1, c, n);
    LiveGrow(zones, chunks, g, [c]);
    LiveGain(zones + [g], chunks + [[c]], |zones|, Carved(c, n), Block(2, n));
    assert (chunks + [[c]])[|zones| := Carved(c, n)] == chunks + [Carved(c, n)];
    Locate(g, 2);
  }

  /** A zone whose only chunk in use is its first. */
  ghost predicate FirstOnly(cs: seq<Chunk>) {
    cs != [] && cs[0].used && Used(cs) == 1
  }

  /** The zones after the first are as they were, and at most one has been added behind them, whose only
      chunk in use is its first. */
  ghost predicate TailKept(zones: seq<nat>, chunks: seq<seq<Chunk>>, zones': seq<nat>, chunks': seq<seq<Chunk>>) {
    && |zones| == |chunks| && |zones'| == |chunks'| && 1 <= |zones| <= |zones'| <= |zones| + 1 && zones'[0] == zones[0]
    && (forall i :: 1 <= i < |zones| ==> zones'[i] == zones[i] && chunks'[i] == chunks[i])
    && (|zones| < |zones'| ==> FirstOnly(chunks'[|zones|]))
  }

  /** The live payloads have gained the `n` words from address `ptr` on, and only them. */
  ghost predicate Gains(live: set<LiveBlock>, live': set<LiveBlock>, ptr: nat, n: nat) {
    var l := LiveBlock(PageNo(ptr), Block(Slot(ptr), n));
    ptr % 8 == 0 && l !in live && live' == live + {l}
  }

  /** ... as many words as it takes for `size` bytes. */
  ghost predicate SizedBlock(live: set<LiveBlock>, live': set<LiveBlock>, ptr: nat, size: nat) {
    exists n: nat :: size <= 8 * n < size + 8 && Gains(live, live', ptr, n)
  }

  lemma ScanLive(m: Mem, zones: seq<nat>, chunks: seq<seq<Chunk>>, nx: nat, n: nat,
                 r: ScanResult, m': Mem, cs': seq<Chunk>, j: nat)
    requires Chain(m, zones, chunks) && zones != [] && zones[0] + 1 < |m| && |m'| == |m|
    requires m' == m[zones[0] := m'[zones[0]]] && n >= 1 && !r.Overrun?
    requires ScanPost(m, zones[0], nx, chunks[0], n, r, m', cs', j)
    ensures LiveKept(m, m', Live(zones, chunks))
    ensures !r.Found? ==> Live(zones, chunks[0 := cs']) == Live(zones, chunks)
    ensures r.Found? ==> Gains(Live(zones, chunks), Live(zones, chunks[0 := cs']), r.ptr, n)
  {
    forall b ensures LiveBlock(zones[0], b) in Live(zones, chunks) <==> b in Blocks(1, chunks[0]) {
      LiveAt(zones, chunks, 0, b);
    }
    KeptInZone(m, zones, chunks, 0, m'[zones[0]], Blocks(1, chunks[0]), Live(zones, chunks));
    if r.Found? {
      var b := Block(2 + Span(chunks[0][..j]), n);
      LiveGain(zones, chunks, 0, cs', b);
      BlocksWithin(1, cs');
      assert b in Blocks(1, cs');
      Locate(zones[0], b.start);
    } else {
      LiveSame(zones, chunks, 0, cs');
    }
  }

  /** Taking a page from the pool leaves the zones as they are. */
  lemma TakeKeepsChain(m: Mem, list: seq<nat>, m1: Mem, zones: seq<nat>, chunks: seq<seq<Chunk>>)
    requires Chain(m, zones, chunks) && Sorted(list) && list != [] && Elems(zones) !! Elems(list)
    requires TakeStep(m, list, 1, m1, list[1..])
    ensures Chain(m1, zones, chunks) && Elems(zones) !! Elems(list[1..])
    ensures list[0] !in zones && list[0] !in list[1..]
  {
    ChainFrame(m, m1, zones, chunks, Elems(list));
    assert list[0] in Elems(list);
    assert list == [list[0]] + list[1..];
  }

  /** Memory after the last zone is linked to the page `g`, made an empty zone. */
  function GrownMem(m: Mem, last: nat, used: nat, g: nat): Mem
    requires last < |m| && g < |m|
  {
    var m1 := Put(m, last, 0, 4096 * g + used);
    m1[g := m1[g][0 := 0][1 := 4080]]
  }

  lemma GrowFacts(m: Mem, list: seq<nat>, m1: Mem, zones: seq<nat>, chunks: seq<seq<Chunk>>, m': Mem)
    requires Chain(m, zones, chunks) && Sorted(list) && list != [] && Elems(zones) !! Elems(list) && zones != []
    requires TakeStep(m, list, 1, m1, list[1..]) && 1 <= list[0] < |m|
    requires m' == GrownMem(m1, zones[|zones| - 1], Used(chunks[|zones| - 1]), list[0])
    ensures Chain(m', zones + [list[0]], chunks + [[Chunk(510, false)]])
    ensures Linked(m', list[1..]) && Grown(m, list, zones[|zones| - 1], m')
  {
    var last, g := zones[|zones| - 1], list[0];
    TakeKeepsChain(m, list, m1, zones, chunks);
    assert last in Elems(zones);
    FreshZone(m'[g]);
    LinkedFrame(m1, m', list[1..], {last, g});
    ChainGrow(m1, m', zones, chunks, g, [Chunk(510, false)]);
  }

  /** Growing touches the word of the last zone and the pages that were free. */
  ghost predicate Grown(m: Mem, list: seq<nat>, last: nat, m': Mem) {
    && SameOutside(m, m', Elems(list) + {last})
    && last < |m| && m'[last] == m[last][0 := m'[last][0]]
  }

  method WriteZoneHeaderPair(ram: Ram, zone: Zone, header: nat)
    requires zone.base % 4096 == 0 && PageNo(zone.base) < |ram.pages|
    modifies ram
    ensures var p := PageNo(zone.base);
      ram.pages == old(ram.pages)[p := old(ram.pages)[p][0 := zone.next][1 := header]]
  {
    Locate(PageNo(zone.base), 0);
    Locate(PageNo(zone.base), 1);
    ram.Store(zone.base, zone.next);
    ram.Store(zone.base + 8, header);
  }

  /** A page with a zero zone word and one header of 4080 bytes is an empty zone. */
  lemma FreshZone(z: Page)
    requires z[0] == 0 && z[1] == 4080
    ensures ZoneOk(z, 0, [Chunk(510, false)])
  {
    One(z, 1, Chunk(510, false));
  }
}
