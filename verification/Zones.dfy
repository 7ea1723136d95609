/** One zone of the small allocator: scanning it for a first fit, coalescing on the way, and
    carving a chunk out of the fit. */
module Zones {
  import opened Memory
  import opened Chunks
  import opened FirstFit
  import opened Headers

  /** A zone handle: its address, and its zone word as last read or written. */
  datatype Zone = Zone(base: nat, next: nat)

  /** `Overrun`: the scan has absorbed, and zeroed, the word just past the zone, and stands on the chunk
      that has absorbed it, at `curr` with header `head`. */
  datatype ScanResult = Found(ptr: nat) | NotFound | Overrun(curr: nat, head: nat)

  /** The page is a zone with chunks `cs` whose zone word names the next zone `nx`. */
  ghost predicate ZoneOk(z: Page, nx: nat, cs: seq<Chunk>) {
    nx % 4096 == 0 && ZoneShape(z, cs) && z[0] == nx + Used(cs)
  }

  /** The word after the zone does not look like the header of a free chunk that the zone's last
      chunk could absorb. */
  ghost predicate EndGuarded(m: Mem, p: nat, cs: seq<Chunk>)
    requires p + 1 < |m|
  {
    cs != [] && (cs[|cs| - 1].used || !IsFree(m[p + 1][0]))
  }

  // ---- alloc_chunk ----

  /** What a free chunk becomes when `n` words of it are allocated. */
  function Carved(c: Chunk, n: nat): seq<Chunk>
    requires n <= c.words
  {
    if n == c.words then [Chunk(n, true)] else [Chunk(n, true), Chunk(c.words - n - 1, false)]
  }

  lemma CarvedFacts(z: Page, w: nat, c: Chunk, n: nat)
    requires 1 <= n <= c.words && !c.used
    ensures Span(Carved(c, n)) == 1 + c.words && UsedNonEmpty(Carved(c, n)) && Used(Carved(c, n)) == 1
    ensures Blocks(w, Carved(c, n)) == {Block(w + 1, n)}
    ensures Tiles(z, w, Carved(c, n)) <==>
      && w < 512 && z[w] == Hdr(Chunk(n, true))
      && (n != c.words ==> w + 1 + n < 512 && z[w + 1 + n] == Hdr(Chunk(c.words - n - 1, false)))
  {
    One(z, w, Chunk(n, true));
    if n != c.words {
      One(z, w + 1 + n, Chunk(c.words - n - 1, false));
      Two(z, w, Chunk(n, true), Chunk(c.words - n - 1, false));
    }
  }

  /** The zone after `n` words of the free chunk between `pre` and `post` are allocated. */
  ghost predicate CarvedZone(z: Page, pre: seq<Chunk>, c: Chunk, n: nat, post: seq<Chunk>, nx: nat, z': Page)
    requires n <= c.words
  {
    var cs, cs' := pre + [c] + post, pre + Carved(c, n) + post;
    var b := Block(2 + Span(pre), n);
    && ZoneOk(z', nx, cs') && Used(cs') == Used(cs) + 1
    && b !in Blocks(1, cs) && Blocks(1, cs') == Blocks(1, cs) + {b}
    && PayloadKept(z, z', Blocks(1, cs))
  }

  lemma Carve(z: Page, pre: seq<Chunk>, c: Chunk, n: nat, post: seq<Chunk>, nx: nat, z': Page)
    requires ZoneOk(z, nx, pre + [c] + post) && !c.used && 1 <= n <= c.words
    requires z'[0] == z[0] + 1 && Tiles(z', 1 + Span(pre), Carved(c, n))
    requires SameBut(z, z', 1 + Span(pre), 2 + Span(pre) + c.words)
    ensures CarvedZone(z, pre, c, n, post, nx, z')
  {
    var w := 1 + Span(pre);
    CarvedFacts(z', w, c, n);
    One(z, w, c);
    CarveBlocks(pre, c, n, post);
    Rewrite(z, z', pre, [c], Carved(c, n), post);
    RewritePayload(z, z', pre, 1 + c.words, post);
  }

  lemma CarveBlocks(pre: seq<Chunk>, c: Chunk, n: nat, post: seq<Chunk>)
    requires !c.used && 1 <= n <= c.words
    ensures var cs, cs', b := pre + [c] + post, pre + Carved(c, n) + post, Block(2 + Span(pre), n);
      && Used(cs') == Used(cs) + 1 && Blocks(1, cs) == Around(pre, 1 + c.words, post)
      && b !in Blocks(1, cs) && Blocks(1, cs') == Blocks(1, cs) + {b}
  {
    CarvedFacts(ZeroPage(), 1 + Span(pre), c, n);
    One(ZeroPage(), 1 + Span(pre), c);
    MiddleGains(pre, [c], Carved(c, n), post, Block(2 + Span(pre), n));
  }

  /** Where the chunk between `pre` and `post` is, and what its header is. */
  lemma Place(z: Page, pre: seq<Chunk>, c: Chunk, post: seq<Chunk>)
    requires ZoneShape(z, pre + [c] + post)
    ensures var w := 1 + Span(pre);
      && w + 1 + c.words + Span(post) == 512 && z[w] == Hdr(c)
      && Tiles(z, w + 1 + c.words, post) && (post != [] ==> w + 1 + c.words < 512)
  {
    Cat3(z, 1, pre, [c], post);
    One(z, 1 + Span(pre), c);
  }

  /** The zone word of a zone: the count is at most 255, so neither the limit of 510 nor the 12
      bits of the field are ever reached, and the address is not disturbed. */
  lemma ZoneWord(z: Page, nx: nat, cs: seq<Chunk>)
    requires ZoneOk(z, nx, cs)
    ensures Used(cs) <= 255 && GetRefs(z[0]) == Used(cs) && GetNext(z[0]) == nx
  {
    UsedBound(cs);
    var u := Used(cs);
    assert (nx + u) % 4096 == u;
  }

  /** The page after `alloc_chunk` on the chunk whose header is word `w`. */
  function CarvedPage(z: Page, w: nat, c: Chunk, n: nat): Page
    requires n <= c.words && w + 1 + c.words <= 512
  {
    var z1 := z[0 := z[0] + 1][w := Hdr(Chunk(c.words, true))];
    if n == c.words then z1
    else z1[w := Hdr(Chunk(n, true))][w + 1 + n := Hdr(Chunk(c.words - n - 1, false))]
  }

  lemma CarvedPageFacts(z: Page, w: nat, c: Chunk, n: nat)
    requires 1 <= n <= c.words && 1 <= w && w + 1 + c.words <= 512 && !c.used
    ensures var z' := CarvedPage(z, w, c, n);
      z'[0] == z[0] + 1 && Tiles(z', w, Carved(c, n)) && SameBut(z, z', w, w + 1 + c.words)
  {
    CarvedFacts(CarvedPage(z, w, c, n), w, c, n);
  }

  /** The writes of `alloc_chunk`: the count in the zone word, the header marked used, and on a
      split the shortened header and the remainder's. */
  method WriteChunk(ram: Ram, size: nat, ptr: nat, zone: Zone, head: nat, ghost p: nat, ghost w: nat, ghost c: Chunk)
    requires p < |ram.pages| && zone == Zone(4096 * p, ram.pages[p][0]) && GetRefs(zone.next) <= 255
    requires w >= 1 && w + 1 + c.words <= 512 && ptr == 4096 * p + 8 * w && head == Hdr(c) && !c.used
    requires size % 8 == 0 && 8 <= size <= 8 * c.words
    modifies ram
    ensures ram.pages == old(ram.pages)[p := CarvedPage(old(ram.pages)[p], w, c, size / 8)]
  {
    ghost var m, z, n := ram.pages, ram.pages[p], size / 8;
    CountUse(ram, zone, p);
    var used := SetUsed(head);
    HdrFields(c, 0);
    Locate(p, w);
    ram.Store(ptr, used);
    ghost var z1 := z[0 := z[0] + 1];
    PutOn(m, p, z1, w, used);
    if size != ChunkSize(used) {
      SplitChunk(ram, used, size, ptr, p, w, c.words);
      ghost var z2, h := z1[w := used], Hdr(Chunk(n, true));
      PutOn(m, p, z2, w, h);
      PutOn(m, p, z2[w := h], w + 1 + n, Hdr(Chunk(c.words - n - 1, false)));
    }
  }

  lemma PutOn(m: Mem, p: nat, z: Page, k: nat, v: nat)
    requires p < |m| && k < 512
    ensures Put(m[p := z], p, k, v) == m[p := z[k := v]]
  {
  }

  /** `Header::split` of a used chunk of `k` words. */
  method SplitChunk(ram: Ram, used: nat, size: nat, ptr: nat, ghost p: nat, ghost w: nat, ghost k: nat)
    requires p < |ram.pages| && w >= 1 && w + 1 + k <= 512 && ptr == 4096 * p + 8 * w && used == Hdr(Chunk(k, true))
    requires size % 8 == 0 && 8 <= size < 8 * k
    modifies ram
    ensures var n := size / 8;
      ram.pages == Put(Put(old(ram.pages), p, w, Hdr(Chunk(n, true))), p, w + 1 + n, Hdr(Chunk(k - n - 1, false)))
  {
    ghost var n := size / 8;
    HdrFields(Chunk(k, true), n);
    Locate(p, w);
    Locate(p, w + 1 + n);
    var nextSize := ChunkSize(used) - size;
    ram.Store(ptr, SetSize(used, size));
    var nextAddr := ptr + HEADER_SIZE + size;
    ram.Store(nextAddr, nextSize - HEADER_SIZE);
  }

  /** `increment_refs`, below its limit. */
  method CountUse(ram: Ram, zone: Zone, ghost p: nat)
    requires p < |ram.pages| && zone == Zone(4096 * p, ram.pages[p][0]) && GetRefs(zone.next) <= 255
    modifies ram
    ensures ram.pages == Put(old(ram.pages), p, 0, zone.next + 1)
  {
    Locate(p, 0);
    var newCount := GetRefs(zone.next) + 1;
    assert newCount <= 510;
    ram.Store(zone.base, PackZone(GetNext(zone.next), newCount));
  }

  method AllocChunk(ram: Ram, size: nat, ptr: nat, zone: Zone, head: nat,
                    ghost p: nat, ghost nx: nat, ghost pre: seq<Chunk>, ghost c: Chunk, ghost post: seq<Chunk>)
    requires p < |ram.pages| && ZoneOk(ram.pages[p], nx, pre + [c] + post) && !c.used
    requires zone == Zone(4096 * p, ram.pages[p][0])
    requires ptr == 4096 * p + 8 * (1 + Span(pre)) && head == Hdr(c)
    requires size % 8 == 0 && 8 <= size <= 8 * c.words
    modifies ram
    ensures |ram.pages| == |old(ram.pages)|
    ensures ram.pages == old(ram.pages)[p := ram.pages[p]]
    ensures CarvedZone(old(ram.pages)[p], pre, c, size / 8, post, nx, ram.pages[p])
  {
    ghost var z, w, n := ram.pages[p], 1 + Span(pre), size / 8;
    Place(z, pre, c, post);
    ZoneWord(z, nx, pre + [c] + post);
    WriteChunk(ram, size, ptr, zone, head, p, w, c);
    CarvedPageFacts(z, w, c, n);
    Carve(z, pre, c, n, post, nx, ram.pages[p]);
  }

  // ---- scan ----

  /** The scan in progress on page `z`, which was `z0` with chunks `cs` at the start: the cursor
      is on `cur`, which stands for `cs[j..k]`. */
  ghost predicate Scanning(z0: Page, cs: seq<Chunk>, n: nat, z: Page, pre: seq<Chunk>, cur: Chunk, j: nat, k: nat) {
    Cursor(cs, n, pre, cur, j, k) && SameLive(z0, cs, z, pre + [cur] + cs[k..])
  }

  lemma ScanStart(z: Page, nx: nat, cs: seq<Chunk>, n: nat)
    requires ZoneOk(z, nx, cs)
    ensures cs != [] && Scanning(z, cs, n, z, [], cs[0], 0, 1)
  {
    CursorStart(cs, n);
    assert [] + [cs[0]] + cs[1..] == cs;
  }

  /** What the cursor's header and the next header are. */
  lemma ScanPlace(z0: Page, cs: seq<Chunk>, n: nat, z: Page, pre: seq<Chunk>, cur: Chunk, j: nat, k: nat)
    requires Scanning(z0, cs, n, z, pre, cur, j, k)
    ensures var w := 1 + Span(pre);
      && w + 1 + cur.words <= 512 && z[w] == Hdr(cur)
      && (k < |cs| ==> w + 2 + cur.words + cs[k].words <= 512 && z[w + 1 + cur.words] == Hdr(cs[k]))
      && (k == |cs| ==> w + 1 + cur.words == 512)
  {
    Place(z, pre, cur, cs[k..]);
    if k < |cs| {
      assert cs[k..][0] == cs[k];
      ChunkBound(cs[k..], 0);
    }
  }

  lemma ScanAdvance(z0: Page, cs: seq<Chunk>, n: nat, z: Page, pre: seq<Chunk>, cur: Chunk, j: nat, k: nat)
    requires Scanning(z0, cs, n, z, pre, cur, j, k) && k < |cs|
    requires (cur.used || cur.words < n) && (cur.used || cs[k].used)
    ensures Scanning(z0, cs, n, z, pre + [cur], cs[k], k, k + 1)
    ensures Span(pre + [cur]) == Span(pre) + 1 + cur.words
  {
    CursorAdvance(cs, n, pre, cur, j, k);
    assert pre + [cur] + cs[k..] == (pre + [cur]) + [cs[k]] + cs[k + 1..];
    Cat(z, 1, pre, [cur]);
    One(z, 1, cur);
  }

  lemma MergeZone(z: Page, pre: seq<Chunk>, c: Chunk, d: Chunk, post: seq<Chunk>, z': Page)
    requires ZoneShape(z, pre + [c, d] + post) && !c.used && !d.used
    requires 1 + Span(pre) < 512 && z'[0] == z[0]
    requires z'[1 + Span(pre)] == Hdr(Chunk(c.words + 1 + d.words, false))
    requires SameBut(z, z', 1 + Span(pre), 3 + Span(pre) + c.words + d.words)
    ensures SameLive(z, pre + [c, d] + post, z', pre + [Chunk(c.words + 1 + d.words, false)] + post)
  {
    var w, e := 1 + Span(pre), Chunk(c.words + 1 + d.words, false);
    One(z', w, e);
    One(z, w, c);
    One(z, w + 1 + c.words, d);
    Two(z, w, c, d);
    MiddleBlocks(pre, [c, d], post);
    MiddleBlocks(pre, [e], post);
    Rewrite(z, z', pre, [c, d], [e], post);
    RewritePayload(z, z', pre, 2 + c.words + d.words, post);
  }

  lemma SameLiveTrans(z: Page, cs: seq<Chunk>, z1: Page, cs1: seq<Chunk>, z2: Page, cs2: seq<Chunk>)
    requires SameLive(z, cs, z1, cs1) && SameLive(z1, cs1, z2, cs2)
    ensures SameLive(z, cs, z2, cs2)
  {
  }

  lemma ScanMerge(z0: Page, cs: seq<Chunk>, n: nat, z: Page, pre: seq<Chunk>, cur: Chunk, j: nat, k: nat, z': Page)
    requires Scanning(z0, cs, n, z, pre, cur, j, k) && k < |cs| && !cur.used && !cs[k].used && cur.words < n
    requires 1 + Span(pre) < 512 && z'[0] == z[0]
    requires z'[1 + Span(pre)] == Hdr(Chunk(cur.words + 1 + cs[k].words, false))
    requires SameBut(z, z', 1 + Span(pre), 3 + Span(pre) + cur.words + cs[k].words)
    ensures Scanning(z0, cs, n, z', pre, Chunk(cur.words + 1 + cs[k].words, false), j, k + 1)
  {
    var e := Chunk(cur.words + 1 + cs[k].words, false);
    CursorMerge(cs, n, pre, cur, j, k);
    assert pre + [cur] + cs[k..] == pre + [cur, cs[k]] + cs[k + 1..];
    MergeZone(z, pre, cur, cs[k], cs[k + 1..], z');
    SameLiveTrans(z0, cs, z, pre + [cur, cs[k]] + cs[k + 1..], z', pre + [e] + cs[k + 1..]);
  }

  /** The scan has passed the last chunk. */
  lemma ScanEnd(z0: Page, cs: seq<Chunk>, n: nat, z: Page, pre: seq<Chunk>, cur: Chunk, j: nat)
    requires Scanning(z0, cs, n, z, pre, cur, j, |cs|) && (cur.used || cur.words < n)
    ensures NoFit(cs, n) && SameLive(z0, cs, z, pre + [cur]) && pre + [cur] == Coalesced(cs)
    ensures cs != [] && cs[|cs| - 1].used == cur.used
  {
    CursorPassed(cs, n, pre, cur, j, |cs|);
    assert pre + [cur] + cs[|cs|..] == pre + [cur] && cs[..|cs|] == cs;
    if !cur.used {
      FreeInside(cs, j, |cs|, |cs| - 1);
    }
  }

  /** `Header::merge` of a free chunk with the next one, and the header write after it. */
  method MergeHeaders(ram: Ram, prev: nat, trail: nat, next: nat, nextAddr: nat,
                      ghost p: nat, ghost w: nat, ghost c: Chunk, ghost d: Chunk) returns (merged: nat)
    requires p < |ram.pages| && w + 2 + c.words + d.words <= 512
    requires trail == 4096 * p + 8 * w && nextAddr == trail + 8 + 8 * c.words
    requires prev == Hdr(c) && next == Hdr(d) && !c.used && !d.used && w >= 1
    modifies ram
    ensures merged == Hdr(Chunk(c.words + 1 + d.words, false))
    ensures ram.pages ==
      Put(Put(old(ram.pages), p, w + 1 + c.words, 0), p, w, merged)
  {
    HdrFields(c, c.words + 1 + d.words);
    HdrFields(d, 0);
    Locate(p, w);
    Locate(p, w + 1 + c.words);
    assert IsFree(prev) && IsFree(next);
    var size := ChunkSize(prev) + HEADER_SIZE + ChunkSize(next);
    merged := SetSize(prev, size);
    ram.Store(nextAddr, 0);
    ram.Store(trail, merged);
  }

  /** What a scan of the zone on page `p` with chunks `cs` may end in, for `n` words. */
  ghost predicate ScanPost(m: Mem, p: nat, nx: nat, cs: seq<Chunk>, n: nat,
                           r: ScanResult, m': Mem, cs': seq<Chunk>, j: nat)
    requires p + 1 < |m| && p < |m'|
  {
    match r
    case Found(ptr) =>
      && FirstFitAt(cs, n, j) && ptr == 4096 * p + 8 * (2 + Span(cs[..j]))
      && Allocated(m[p], nx, cs, Block(2 + Span(cs[..j]), n), m'[p], cs') && FitChunks(cs, n, j, cs')
    case NotFound =>
      NoFit(cs, n) && EndGuarded(m, p, cs) && SameLive(m[p], cs, m'[p], cs') && cs' == Coalesced(cs)
    case Overrun(curr, head) =>
      NoFit(cs, n) && !EndGuarded(m, p, cs) && Overran(m, p, nx, cs, m') && OnLast(m', p, n, curr, head)
  }

  /** The chunks after `n` words have been carved out of the run that starts at `j`: the first chunks of the run
      up to `k`, no more than it takes, are joined, every run before is coalesced, and what is behind is as
      it was. */
  ghost predicate FitAt(cs: seq<Chunk>, n: nat, j: nat, k: nat, cs': seq<Chunk>) {
    && j < k <= |cs| && n < Span(cs[j..k]) && (j < k - 1 ==> Span(cs[j..k - 1]) <= n)
    && var r := Coalesced(cs[..k]);
    r != [] && n <= r[|r| - 1].words && cs' == r[..|r| - 1] + Carved(r[|r| - 1], n) + cs[k..]
  }

  ghost predicate FitChunks(cs: seq<Chunk>, n: nat, j: nat, cs': seq<Chunk>) {
    exists k: nat :: FitAt(cs, n, j, k, cs')
  }

  /** The zone has gained the live payload `b`, apart from those it had, which are untouched. */
  ghost predicate Allocated(z: Page, nx: nat, cs: seq<Chunk>, b: Block, z': Page, cs': seq<Chunk>) {
    && ZoneOk(z', nx, cs') && Used(cs') == Used(cs) + 1
    && b !in Blocks(1, cs) && Blocks(1, cs') == Blocks(1, cs) + {b}
    && PayloadKept(z, z', Blocks(1, cs))
  }

  lemma ScanFound(z0: Page, cs: seq<Chunk>, n: nat, nx: nat, z: Page,
                  pre: seq<Chunk>, cur: Chunk, j: nat, k: nat, z': Page)
    requires Scanning(z0, cs, n, z, pre, cur, j, k) && !cur.used && cur.words >= n
    requires CarvedZone(z, pre, cur, n, cs[k..], nx, z')
    ensures FirstFitAt(cs, n, j)
    ensures Span(pre) == Span(cs[..j])
    ensures Allocated(z0, nx, cs, Block(2 + Span(cs[..j]), n), z', pre + Carved(cur, n) + cs[k..])
    ensures FitChunks(cs, n, j, pre + Carved(cur, n) + cs[k..])
  {
    CursorFound(cs, n, pre, cur, j, k);
    var r := Coalesced(cs[..k]);
    assert r[|r| - 1] == cur && r[..|r| - 1] == pre;
    assert FitAt(cs, n, j, k, pre + Carved(cur, n) + cs[k..]);
  }

  /** The address the scan reads next: in the zone, or the first word of the page after it. */
  lemma NextAddr(p: nat, before: nat, words: nat)
    requires 2 + before + words <= 512
    ensures var addr := 4096 * p + 8 * (1 + before) + 8 + 8 * words;
      && addr % 8 == 0
      && PageNo(addr) == (if 2 + before + words < 512 then p else p + 1)
      && Slot(addr) == (if 2 + before + words < 512 then 2 + before + words else 0)
  {
    if 2 + before + words < 512 {
      Locate(p, 2 + before + words);
    } else {
      Locate(p + 1, 0);
    }
  }

  /** The page `p` holds the scan in progress, with `curr` and `head` on the cursor's chunk. */
  ghost predicate AtCursor(m0: Mem, m: Mem, p: nat, cs: seq<Chunk>, n: nat,
                           pre: seq<Chunk>, cur: Chunk, j: nat, k: nat, curr: nat, head: nat)
  {
    && p + 1 < |m0| && |m| == |m0| && m == m0[p := m[p]]
    && Scanning(m0[p], cs, n, m[p], pre, cur, j, k)
    && curr == 4096 * p + 8 * (1 + Span(pre)) && head == Hdr(cur)
  }

  /** The scan has passed the last chunk without finding a fit. */
  ghost predicate AtEnd(m0: Mem, m: Mem, p: nat, cs: seq<Chunk>, n: nat, cs': seq<Chunk>) {
    && p + 1 < |m0| && |m| == |m0| && m == m0[p := m[p]]
    && NoFit(cs, n) && EndGuarded(m0, p, cs) && SameLive(m0[p], cs, m[p], cs') && cs' == Coalesced(cs)
  }

  // ---- What an overrun does ----

  /** The headers of a page decide its chunks. */
  lemma {:induction false} SameHeaders(z: Page, w: nat, pre: seq<Chunk>, cs: seq<Chunk>)
    requires Tiles(z, w, pre) && Tiles(z, w, cs) && Span(pre) < Span(cs) <= 511
    ensures |pre| < |cs| && cs[..|pre|] == pre
    decreases |pre|
  {
    if pre != [] {
      ChunkBound(pre, 0);
      ChunkBound(cs, 0);
      assert pre[0] == cs[0];
      SameHeaders(z, w + 1 + pre[0].words, pre[1..], cs[1..]);
      assert pre == [pre[0]] + pre[1..] && cs == [cs[0]] + cs[1..];
    }
  }

  /** The chunk that any tiling of a page has behind `pre`. */
  lemma ChunkBehind(z: Page, pre: seq<Chunk>, cs: seq<Chunk>)
    requires Tiles(z, 1, pre) && Span(pre) < 511 && ZoneShape(z, cs)
    ensures |pre| < |cs| && cs[..|pre|] == pre && z[1 + Span(pre)] == Hdr(cs[|pre|])
    ensures 2 + Span(pre) + cs[|pre|].words <= 512
    ensures Used(cs) >= Used(pre) + if cs[|pre|].used then 1 else 0
  {
    SameHeaders(z, 1, pre, cs);
    var n := |pre|;
    assert cs == pre + [cs[n]] + cs[n + 1..];
    Place(z, pre, cs[n], cs[n + 1..]);
    Cat3(z, 1, pre, [cs[n]], cs[n + 1..]);
    One(z, 1, cs[n]);
  }

  /** The header that the last chunk `cur` of a zone gets when it absorbs the word `v` behind the zone. */
  function Overgrown(cur: Chunk, v: nat): nat {
    8 * cur.words + 8 + v % 4096
  }

  /** Absorbing any free header from behind the zone into its last chunk leaves a page that is no zone
      any more, whatever its chunks are taken to be: the chunk reaches past the page, or its size has
      spilled into the used bit and the zone word does not count it. */
  lemma OverrunBreaks(z: Page, nx: nat, pre: seq<Chunk>, cur: Chunk, v: nat, cs: seq<Chunk>)
    requires ZoneOk(z, nx, pre + [cur]) && !cur.used
    ensures 1 + Span(pre) < 512
    ensures !ZoneOk(z[1 + Span(pre) := Overgrown(cur, v)], nx, cs)
  {
    var w, h := 1 + Span(pre), Overgrown(cur, v);
    assert pre + [cur] + [] == pre + [cur];
    Place(z, pre, cur, []);
    Cat(z, 1, pre, [cur]);
    One(z, w, cur);
    var z' := z[w := h];
    if ZoneOk(z', nx, cs) {
      TilesFrame(z, z', 1, pre);
      ChunkBehind(z', pre, cs);
    }
  }

  /** The zone on page `p` has been overrun: the word behind it is zero, its page is no zone with any
      chunks, and only the header of its last chunk has changed. */
  ghost predicate Overran(m: Mem, p: nat, nx: nat, cs: seq<Chunk>, m': Mem) {
    && p + 1 < |m| && |m'| == |m| && m' == m[p := m'[p]][p + 1 := m[p + 1][0 := 0]]
    && PayloadKept(m[p], m'[p], Blocks(1, cs))
    && forall cs' :: !ZoneOk(m'[p], nx, cs')
  }

  /** `curr` and `head` are on a chunk of page `p` whose place leaves less than `n` words in the page. */
  ghost predicate OnLast(m: Mem, p: nat, n: nat, curr: nat, head: nat) {
    && p < |m| && 4096 * p <= curr < 4096 * p + 4096 < curr + 8 + 8 * n
    && curr % 8 == 0 && m[p][Slot(curr)] == head
  }

  /** `Header::merge` with the word behind the zone, and the header write after it. */
  method Absorb(ram: Ram, prev: nat, trail: nat, next: nat, nextAddr: nat, ghost p: nat, ghost w: nat, ghost c: Chunk)
    returns (merged: nat)
    requires p + 1 < |ram.pages| && 1 <= w && w + 1 + c.words == 512 && !c.used
    requires trail == 4096 * p + 8 * w && nextAddr == 4096 * (p + 1) && prev == Hdr(c)
    modifies ram
    ensures merged == Overgrown(c, next)
    ensures ram.pages == Put(Put(old(ram.pages), p + 1, 0, 0), p, w, merged)
  {
    HdrFields(c, 0);
    Locate(p, w);
    Locate(p + 1, 0);
    var size := ChunkSize(prev) + HEADER_SIZE + ChunkSize(next);
    ram.Store(nextAddr, 0);
    merged := SetSize(prev, size);
    ram.Store(trail, merged);
  }

  lemma AbsorbOverruns(m0: Mem, m: Mem, m': Mem, p: nat, nx: nat, cs: seq<Chunk>, n: nat,
                       pre: seq<Chunk>, cur: Chunk, j: nat, curr: nat, v: nat)
    requires AtCursor(m0, m, p, cs, n, pre, cur, j, |cs|, curr, Hdr(cur)) && ZoneOk(m0[p], nx, cs)
    requires !cur.used && cur.words < n && 1 + Span(pre) < 512
    requires m' == Put(Put(m, p + 1, 0, 0), p, 1 + Span(pre), Overgrown(cur, v))
    ensures Overran(m0, p, nx, cs, m') && OnLast(m', p, n, curr, Overgrown(cur, v))
  {
    ScanPlace(m0[p], cs, n, m[p], pre, cur, j, |cs|);
    Locate(p, 1 + Span(pre));
    ScanEnd(m0[p], cs, n, m[p], pre, cur, j);
    forall cs' ensures !ZoneOk(m'[p], nx, cs') {
      OverrunBreaks(m[p], nx, pre, cur, v, cs');
    }
    OverrunKeeps(m0[p], cs, m[p], pre, cur, m'[p]);
  }

  /** The header of a free last chunk is no part of a live payload. */
  lemma OverrunKeeps(z0: Page, cs: seq<Chunk>, z: Page, pre: seq<Chunk>, cur: Chunk, z': Page)
    requires SameLive(z0, cs, z, pre + [cur]) && !cur.used && 1 + Span(pre) < 512
    requires z' == z[1 + Span(pre) := z'[1 + Span(pre)]]
    ensures PayloadKept(z0, z', Blocks(1, cs))
  {
    Cat(z, 1, pre, [cur]);
    One(z, 1 + Span(pre), cur);
    BlocksWithin(1, pre);
  }

  /** The scan absorbs the word behind the zone. */
  method AbsorbPast(ram: Ram, prev: nat, trail: nat, next: nat, nextAddr: nat, ghost m0: Mem, ghost p: nat, ghost n: nat,
                    ghost nx: nat, ghost cs: seq<Chunk>, ghost pre: seq<Chunk>, ghost cur: Chunk, ghost j: nat)
    returns (merged: nat)
    requires AtCursor(m0, ram.pages, p, cs, n, pre, cur, j, |cs|, trail, prev) && ZoneOk(m0[p], nx, cs)
    requires !cur.used && cur.words < n && IsFree(next) && next == ram.pages[p + 1][0] && nextAddr == 4096 * (p + 1)
    modifies ram
    ensures NoFit(cs, n) && !EndGuarded(m0, p, cs)
    ensures Overran(m0, p, nx, cs, ram.pages) && OnLast(ram.pages, p, n, trail, merged)
  {
    ghost var m := ram.pages;
    ScanPlace(m0[p], cs, n, m[p], pre, cur, j, |cs|);
    EndReached(m0, m, p, cs, n, pre, cur, j, trail, prev);
    merged := Absorb(ram, prev, trail, next, nextAddr, p, 1 + Span(pre), cur);
    AbsorbOverruns(m0, m, ram.pages, p, nx, cs, n, pre, cur, j, trail, next);
  }

  /** The scan merges the cursor's chunk with the next one. */
  method MergeAt(ram: Ram, prev: nat, trail: nat, next: nat, nextAddr: nat, ghost m0: Mem, ghost p: nat, ghost n: nat,
                 ghost cs: seq<Chunk>, ghost pre: seq<Chunk>, ghost cur: Chunk, ghost j: nat, ghost k: nat)
    returns (merged: nat)
    requires AtCursor(m0, ram.pages, p, cs, n, pre, cur, j, k, trail, prev) && k < |cs|
    requires !cur.used && cur.words < n && !cs[k].used && next == Hdr(cs[k]) && nextAddr == trail + 8 + 8 * cur.words
    modifies ram
    ensures AtCursor(m0, ram.pages, p, cs, n, pre, Chunk(cur.words + 1 + cs[k].words, false), j, k + 1, trail, merged)
  {
    ghost var m := ram.pages;
    CursorPlace(m0, m, p, cs, n, pre, cur, j, k, trail, prev);
    merged := MergeHeaders(ram, prev, trail, next, nextAddr, p, 1 + Span(pre), cur, cs[k]);
    MergeStep(m0, m, ram.pages, p, cs, n, pre, cur, j, k, trail, prev);
  }

  /** The first branch of the scan loop: passes a chunk that is in use or too small, merging it
      with the next one when both are free. */
  method PassChunk(ram: Ram, size: nat, head0: nat, curr0: nat, end: nat, ghost m0: Mem, ghost p: nat,
                   ghost nx: nat, ghost cs: seq<Chunk>, ghost pre0: seq<Chunk>, ghost cur0: Chunk, ghost j0: nat, ghost k: nat)
    returns (overrun: bool, head: nat, curr: nat, ghost pre: seq<Chunk>, ghost cur: Chunk, ghost j: nat)
    requires AtCursor(m0, ram.pages, p, cs, size / 8, pre0, cur0, j0, k, curr0, head0)
    requires size % 8 == 0 && end == 4096 * p + 4096 && ZoneOk(m0[p], nx, cs)
    requires ChunkSize(head0) < size || !IsFree(head0)
    modifies ram
    ensures k < |cs| ==> !overrun && curr < end
    ensures k < |cs| ==> AtCursor(m0, ram.pages, p, cs, size / 8, pre, cur, j, k + 1, curr, head)
    ensures k == |cs| && !overrun ==> curr == end && AtEnd(m0, ram.pages, p, cs, size / 8, pre + [cur])
    ensures overrun ==>
      && NoFit(cs, size / 8) && !EndGuarded(m0, p, cs)
      && Overran(m0, p, nx, cs, ram.pages) && OnLast(ram.pages, p, size / 8, curr, head)
  {
    ghost var m, n := ram.pages, size / 8;
    pre, cur, j := pre0, cur0, j0;
    CursorPlace(m0, m, p, cs, n, pre, cur, j, k, curr0, head0);
    HdrFields(cur, 0);
    NextAddr(p, Span(pre), cur.words);
    var prev, trail := head0, curr0;
    curr := curr0 + HEADER_SIZE + ChunkSize(head0);
    head := ram.Load(curr);
    overrun := false;
    if IsFree(prev) && IsFree(head) {
      if curr >= end {
        head := AbsorbPast(ram, prev, trail, head, curr, m0, p, n, nx, cs, pre, cur, j);
        curr := trail;
        overrun := true;
      } else {
        HdrFields(cs[k], 0);
        head := MergeAt(ram, prev, trail, head, curr, m0, p, n, cs, pre, cur, j, k);
        curr := trail;
        cur := Chunk(cur.words + 1 + cs[k].words, false);
      }
    } else if k < |cs| {
      HdrFields(cs[k], 0);
      AdvanceStep(m0, m, p, cs, n, pre, cur, j, k, curr0, head0);
      pre, cur, j := pre + [cur], cs[k], k;
    } else {
      EndReached(m0, m, p, cs, n, pre, cur, j, curr0, head0);
    }
  }

  /** What the cursor's header and the next header are. */
  lemma CursorPlace(m0: Mem, m: Mem, p: nat, cs: seq<Chunk>, n: nat,
                    pre: seq<Chunk>, cur: Chunk, j: nat, k: nat, curr: nat, head: nat)
    ensures AtCursor(m0, m, p, cs, n, pre, cur, j, k, curr, head) ==>
      var w := 1 + Span(pre);
      && w + 1 + cur.words <= 512 && m[p][w] == Hdr(cur)
      && (k < |cs| ==> w + 2 + cur.words + cs[k].words <= 512 && m[p][w + 1 + cur.words] == Hdr(cs[k]))
      && (k == |cs| ==> w + 1 + cur.words == 512)
  {
    if AtCursor(m0, m, p, cs, n, pre, cur, j, k, curr, head) {
      ScanPlace(m0[p], cs, n, m[p], pre, cur, j, k);
    }
  }

  lemma EndReached(m0: Mem, m: Mem, p: nat, cs: seq<Chunk>, n: nat,
                   pre: seq<Chunk>, cur: Chunk, j: nat, curr: nat, head: nat)
    ensures AtCursor(m0, m, p, cs, n, pre, cur, j, |cs|, curr, head) && (cur.used || cur.words < n) ==>
      if cur.used || !IsFree(m[p + 1][0]) then AtEnd(m0, m, p, cs, n, pre + [cur])
      else NoFit(cs, n) && !EndGuarded(m0, p, cs)
  {
    if AtCursor(m0, m, p, cs, n, pre, cur, j, |cs|, curr, head) && (cur.used || cur.words < n) {
      ScanEnd(m0[p], cs, n, m[p], pre, cur, j);
    }
  }

  lemma AdvanceStep(m0: Mem, m: Mem, p: nat, cs: seq<Chunk>, n: nat,
                    pre: seq<Chunk>, cur: Chunk, j: nat, k: nat, curr: nat, head: nat)
    ensures
      && AtCursor(m0, m, p, cs, n, pre, cur, j, k, curr, head) && k < |cs|
      && (cur.used || cur.words < n) && (cur.used || cs[k].used)
      ==> AtCursor(m0, m, p, cs, n, pre + [cur], cs[k], k, k + 1, curr + 8 + 8 * cur.words, Hdr(cs[k]))
  {
    if && AtCursor(m0, m, p, cs, n, pre, cur, j, k, curr, head) && k < |cs|
       && (cur.used || cur.words < n) && (cur.used || cs[k].used) {
      ScanAdvance(m0[p], cs, n, m[p], pre, cur, j, k);
    }
  }

  lemma MergeStep(m0: Mem, m: Mem, m': Mem, p: nat, cs: seq<Chunk>, n: nat,
                  pre: seq<Chunk>, cur: Chunk, j: nat, k: nat, curr: nat, head: nat)
    ensures
      && AtCursor(m0, m, p, cs, n, pre, cur, j, k, curr, head) && k < |cs|
      && !cur.used && !cs[k].used && cur.words < n && 2 + Span(pre) + cur.words < 512
      && m' == Put(Put(m, p, 2 + Span(pre) + cur.words, 0), p, 1 + Span(pre),
                   Hdr(Chunk(cur.words + 1 + cs[k].words, false)))
      ==>
      var e := Chunk(cur.words + 1 + cs[k].words, false);
      AtCursor(m0, m', p, cs, n, pre, e, j, k + 1, curr, Hdr(e))
  {
    if && AtCursor(m0, m, p, cs, n, pre, cur, j, k, curr, head) && k < |cs|
       && !cur.used && !cs[k].used && cur.words < n && 2 + Span(pre) + cur.words < 512
       && m' == Put(Put(m, p, 2 + Span(pre) + cur.words, 0), p, 1 + Span(pre),
                    Hdr(Chunk(cur.words + 1 + cs[k].words, false))) {
      ScanMerge(m0[p], cs, n, m[p], pre, cur, j, k, m'[p]);
    }
  }

  /** The second branch of the scan loop: the cursor's chunk serves the request. */
  method TakeFit(ram: Ram, size: nat, curr: nat, zone: Zone, head: nat, ghost m0: Mem, ghost p: nat, ghost nx: nat,
                 ghost cs: seq<Chunk>, ghost pre: seq<Chunk>, ghost cur: Chunk, ghost j: nat, ghost k: nat)
    returns (ghost cs': seq<Chunk>)
    requires AtCursor(m0, ram.pages, p, cs, size / 8, pre, cur, j, k, curr, head) && ZoneOk(m0[p], nx, cs)
    requires zone == Zone(4096 * p, m0[p][0]) && size % 8 == 0 && size >= 8 && !cur.used && cur.words >= size / 8
    modifies ram
    ensures |ram.pages| == |m0| && ram.pages == m0[p := ram.pages[p]]
    ensures ScanPost(m0, p, nx, cs, size / 8, Found(curr + HEADER_SIZE), ram.pages, cs', j)
  {
    ghost var z := ram.pages[p];
    AllocChunk(ram, size, curr, zone, head, p, nx, pre, cur, cs[k..]);
    ScanFound(m0[p], cs, size / 8, nx, z, pre, cur, j, k, ram.pages[p]);
    cs' := pre + Carved(cur, size / 8) + cs[k..];
  }

  method Scan(ram: Ram, zone: Zone, size: nat, ghost p: nat, ghost nx: nat, ghost cs: seq<Chunk>)
    returns (r: ScanResult, ghost cs': seq<Chunk>, ghost j: nat)
    requires p + 1 < |ram.pages| && ZoneOk(ram.pages[p], nx, cs)
    requires zone == Zone(4096 * p, ram.pages[p][0]) && size % 8 == 0 && size >= 8
    modifies ram
    ensures |ram.pages| == |old(ram.pages)| && (!r.Overrun? ==> ram.pages == old(ram.pages)[p := ram.pages[p]])
    ensures ScanPost(old(ram.pages), p, nx, cs, size / 8, r, ram.pages, cs', j)
  {
    ghost var m0, n := ram.pages, size / 8;
    var curr: nat, end: nat := zone.base + 8, zone.base + 4096;
    Locate(p, 1);
    ScanStart(m0[p], nx, cs, n);
    ghost var pre, cur, k := [], cs[0], 1;
    j, cs' := 0, cs;
    ScanPlace(m0[p], cs, n, m0[p], pre, cur, j, k);
    var head := ram.Load(curr);
    while curr < end
      invariant curr < end ==> k <= |cs| && AtCursor(m0, ram.pages, p, cs, n, pre, cur, j, k, curr, head)
      invariant curr >= end ==> AtEnd(m0, ram.pages, p, cs, n, cs')
      decreases |cs| - k, end - curr
    {
      CursorPlace(m0, ram.pages, p, cs, n, pre, cur, j, k, curr, head);
      HdrFields(cur, 0);
      if ChunkSize(head) < size || !IsFree(head) {
        var overrun;
        overrun, head, curr, pre, cur, j := PassChunk(ram, size, head, curr, end, m0, p, nx, cs, pre, cur, j, k);
        if overrun {
          return Overrun(curr, head), cs, j;
        }
        if k == |cs| { cs' := pre + [cur]; } else { k := k + 1; }
      } else {
        cs' := TakeFit(ram, size, curr, zone, head, m0, p, nx, cs, pre, cur, j, k);
        return Found(curr + HEADER_SIZE), cs', j;
      }
    }
    r := NotFound;
  }

  /** How a scan goes on after an overrun: it grants a block, it leaves the zone without one, or it reads
      a header that is not aligned or not in memory. */
  datatype OverrunEnd = Grants(ptr: nat) | RunsOut | Faults

  /** The rest of `scan` after an overrun. It comes to an end, and a block that it grants always reaches
      past the end of the zone. */
  method ScanOn(ram: Ram, curr0: nat, head0: nat, end: nat, size: nat, ghost p: nat) returns (r: OverrunEnd)
    requires OnLast(ram.pages, p, size / 8, curr0, head0) && end == 4096 * p + 4096 && size % 8 == 0
    modifies ram
    ensures |ram.pages| == |old(ram.pages)| && forall q :: 0 <= q < p ==> ram.pages[q] == old(ram.pages)[q]
    ensures r.Grants? ==> 4096 * p < r.ptr <= end < r.ptr + size
  {
    var curr, head := curr0, head0;
    OnPage(curr, p);
    while curr < end
      invariant 4096 * p <= curr && end < curr + 8 + size && (curr < end ==> ram.InRam(curr))
      invariant |ram.pages| == |old(ram.pages)| && forall q :: 0 <= q < p ==> ram.pages[q] == old(ram.pages)[q]
      decreases if curr < end then end - curr else 0, IsFree(head), 4096 - ChunkSize(head)
    {
      if ChunkSize(head) >= size && IsFree(head) {
        GrantsPast(curr, p, size);
        return Grants(curr + HEADER_SIZE);
      }
      var fault;
      fault, curr, head := PassOn(ram, curr, head, p);
      if fault {
        return Faults;
      }
    }
    r := RunsOut;
  }

  /** A step over a chunk, merging it with the next one when both look free: the cursor moves on, or the
      chunk grows, or it is in use from now on. */
  method PassOn(ram: Ram, curr0: nat, head0: nat, ghost p: nat) returns (fault: bool, curr: nat, head: nat)
    requires 4096 * p <= curr0 && ram.InRam(curr0)
    modifies ram
    ensures |ram.pages| == |old(ram.pages)| && forall q :: 0 <= q < p ==> ram.pages[q] == old(ram.pages)[q]
    ensures !fault ==> ram.InRam(curr) && curr >= curr0
    ensures !fault && curr == curr0 ==>
      IsFree(head0) && (IsFree(head) ==> ChunkSize(head) > ChunkSize(head0))
  {
    fault, head := false, 0;
    curr := curr0 + HEADER_SIZE + ChunkSize(head0);
    if !ram.InRam(curr) {
      fault := true;
      return;
    }
    head := ram.Load(curr);
    if IsFree(head0) && IsFree(head) {
      AlignedSize(curr0, ChunkSize(head0));
      StoreFrom(ram, curr, 0, p);
      head := Merged(head0, head);
      curr := curr0;
      StoreFrom(ram, curr, head, p);
    }
  }

  /** The header that a free chunk gets from absorbing another one. */
  function Merged(head: nat, next: nat): (h: nat)
    requires IsFree(head) && ChunkSize(head) % 8 == 0
    ensures IsFree(h) ==> ChunkSize(h) > ChunkSize(head)
  {
    var size := ChunkSize(head) + HEADER_SIZE + ChunkSize(next);
    SizeSet(head, size);
    SetSize(head, size)
  }

  /** A store at or above page `p`. */
  method StoreFrom(ram: Ram, addr: nat, w: nat, ghost p: nat)
    requires ram.InRam(addr) && 4096 * p <= addr
    modifies ram
    ensures |ram.pages| == |old(ram.pages)| && forall q :: 0 <= q < p ==> ram.pages[q] == old(ram.pages)[q]
  {
    PageAbove(addr, p);
    ram.Store(addr, w);
  }

  lemma OnPage(curr: nat, p: nat)
    requires 4096 * p <= curr < 4096 * p + 4096
    ensures PageNo(curr) == p
  {
  }

  lemma PageAbove(curr: nat, p: nat)
    requires 4096 * p <= curr
    ensures PageNo(curr) >= p
  {
  }

  lemma AlignedSize(curr: nat, size: nat)
    requires curr % 8 == 0 && (curr + 8 + size) % 8 == 0
    ensures size % 8 == 0
  {
  }

  lemma GrantsPast(curr: nat, p: nat, size: nat)
    requires curr % 8 == 0 && 4096 * p <= curr < 4096 * p + 4096 < curr + 8 + size
    ensures 4096 * p < curr + 8 <= 4096 * p + 4096 < curr + 8 + size
  {
    var k := curr / 8;
    assert curr == 8 * k;
  }
}
