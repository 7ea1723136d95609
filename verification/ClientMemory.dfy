/** What clients may do with the blocks they hold: write inside them, byte by byte. Such writes keep
    the allocator's structures and every other block. */
module ClientMemory {
  import opened Memory
  import opened FreeList
  import opened Chunks
  import opened Headers
  import opened Zones
  import opened ZoneChain
  import opened HeapView

  ghost predicate InPayload(bs: set<Block>, k: nat) {
    exists b :: b in bs && b.start <= k < b.start + b.words
  }

  /** Chunk headers survive any change of live payloads. */
  lemma {:induction false} TilesPayload(z: Page, z': Page, w: nat, cs: seq<Chunk>)
    requires Tiles(z, w, cs)
    requires forall k :: w <= k < 512 && !InPayload(Blocks(w, cs), k) ==> z'[k] == z[k]
    ensures Tiles(z', w, cs)
    decreases |cs|
  {
    if cs != [] {
      var w' := w + 1 + cs[0].words;
      BlocksWithin(w, cs);
      BlocksWithin(w', cs[1..]);
      assert !InPayload(Blocks(w, cs), w);
      forall k | w' <= k < 512 && !InPayload(Blocks(w', cs[1..]), k) ensures z'[k] == z[k] {
        assert !InPayload(Blocks(w, cs), k);
      }
      TilesPayload(z, z', w', cs[1..]);
    }
  }

  /** A write inside the live block at `a`: words of its chunk, or its own pages. */
  ghost predicate WroteIn(m: Mem, m': Mem, a: nat, l: Layout) {
    && |m'| == |m|
    && if IsSmall(l) then
         && PageNo(a) < |m| && m' == m[PageNo(a) := m'[PageNo(a)]]
         && forall k :: 0 <= k < 512 && !(Slot(a) <= k < Slot(a) + Words(l.size)) ==> m'[PageNo(a)][k] == m[PageNo(a)][k]
       else SameOutside(m, m', PagesOf(a, l))
  }

  lemma ZonePayload(z: Page, z': Page, nx: nat, cs: seq<Chunk>, b: Block)
    requires ZoneOk(z, nx, cs) && b in Blocks(1, cs)
    requires forall k :: 0 <= k < 512 && !(b.start <= k < b.start + b.words) ==> z'[k] == z[k]
    ensures ZoneOk(z', nx, cs) && PayloadKept(z, z', Blocks(1, cs) - {b})
  {
    BlocksWithin(1, cs);
    forall k | 1 <= k < 512 && !InPayload(Blocks(1, cs), k) ensures z'[k] == z[k] {
    }
    TilesPayload(z, z', 1, cs);
    forall c, k | c in Blocks(1, cs) - {b} && c.start <= k < c.start + c.words && k < 512 ensures z'[k] == z[k] {
      BlocksDisjoint(1, cs, b, c);
    }
  }

  /** Client writes keep the zones, the live blocks and the contents of every other block. */
  lemma WriteKeepsHeap(m: Mem, m': Mem, zones: seq<nat>, chunks: seq<seq<Chunk>>, live: map<nat, Layout>, a: nat)
    requires LiveOk(m, zones, chunks, live) && a in live && WroteIn(m, m', a, live[a])
    ensures LiveOk(m', zones, chunks, live) && ContentKept(m, m', live - {a})
  {
    if IsSmall(live[a]) {
      SmallWrite(m, m', zones, chunks, live, a);
    } else {
      BigWrite(m, m', zones, chunks, live, a);
    }
  }

  lemma SmallWrite(m: Mem, m': Mem, zones: seq<nat>, chunks: seq<seq<Chunk>>, live: map<nat, Layout>, a: nat)
    requires LiveOk(m, zones, chunks, live) && a in live && IsSmall(live[a]) && WroteIn(m, m', a, live[a])
    ensures LiveOk(m', zones, chunks, live) && ContentKept(m, m', live - {a})
  {
    var i := SmallExtent(m, zones, chunks, live, a);
    var b, p := BlockOf(a, live[a]).block, PageNo(a);
    assert ZoneAt(m, zones, chunks, i);
    ZonePayload(m[p], m'[p], NextZone(zones, i), chunks[i], b);
    ChainUpdate(m, zones, chunks, i, m'[p], chunks[i]);
    assert chunks[i := chunks[i]] == chunks;
    RemoveSmall(live, a);
    var s := SmallBlocks(live - {a});
    forall c | LiveBlock(zones[i], c) in s ensures c in Blocks(1, chunks[i]) - {b} {
      LiveAt(zones, chunks, i, c);
    }
    KeptInZone(m, zones, chunks, i, m'[p], Blocks(1, chunks[i]) - {b}, s);
    RemovePages(live, a);
    assert zones[i] in Elems(zones);
  }

  lemma BigWrite(m: Mem, m': Mem, zones: seq<nat>, chunks: seq<seq<Chunk>>, live: map<nat, Layout>, a: nat)
    requires LiveOk(m, zones, chunks, live) && a in live && !IsSmall(live[a]) && WroteIn(m, m', a, live[a])
    ensures LiveOk(m', zones, chunks, live) && ContentKept(m, m', live - {a})
  {
    assert PagesOf(a, live[a]) <= BigPages(live);
    ChainFrame(m, m', zones, chunks, PagesOf(a, live[a]));
    KeptOutside(m, m', zones, chunks, PagesOf(a, live[a]));
    RemovePages(live, a);
    SmallUnmoved(live, a);
  }

  /** ... and the free list. */
  lemma WriteKeepsFreeList(m: Mem, m': Mem, list: seq<nat>, zones: seq<nat>, chunks: seq<seq<Chunk>>, live: map<nat, Layout>,
                           others: set<nat>, a: nat, lo: nat, hi: nat)
    requires LiveOk(m, zones, chunks, live) && a in live && WroteIn(m, m', a, live[a])
    requires Linked(m, list) && Partition(list, zones, live, others, lo, hi)
    ensures Linked(m', list)
  {
    if IsSmall(live[a]) {
      var i := SmallExtent(m, zones, chunks, live, a);
      assert zones[i] in Elems(zones);
      LinkedFrame(m, m', list, {zones[i]});
    } else {
      assert PagesOf(a, live[a]) <= BigPages(live);
      LinkedFrame(m, m', list, PagesOf(a, live[a]));
    }
  }

  // ---- Bytes ----

  /** Byte `k` of a word, the least significant first. */
  function ByteOf(w: nat, k: nat): nat {
    if k == 0 then w % 256 else ByteOf(w / 256, k - 1)
  }

  function SetByte(w: nat, k: nat, b: nat): nat {
    if k == 0 then w - w % 256 + b else 256 * SetByte(w / 256, k - 1, b) + w % 256
  }

  lemma {:induction false} SetByteGet(w: nat, k: nat, b: nat, j: nat)
    requires b < 256
    ensures ByteOf(SetByte(w, k, b), j) == if j == k then b else ByteOf(w, j)
  {
    var x := SetByte(w, k, b);
    if k == 0 {
      assert x % 256 == b && x / 256 == w / 256;
    } else {
      assert x % 256 == w % 256 && x / 256 == SetByte(w / 256, k - 1, b);
      if j > 0 {
        SetByteGet(w / 256, k - 1, b, j - 1);
      }
    }
  }

  /** The byte at address `x`. */
  function ByteAt(m: Mem, x: nat): nat
    requires x < 4096 * |m|
  {
    ByteOf(m[PageNo(x)][Slot(x)], x % 8)
  }

  /** The bytes of `[addr, addr + n)` and the word at `(p, k)` overlap. */
  predicate Touches(addr: nat, n: nat, p: nat, k: nat) {
    addr < 4096 * p + 8 * k + 8 && 4096 * p + 8 * k < addr + n
  }

  /** Words that share no byte with `[addr, addr + n)` are as they were. */
  ghost predicate WordsKept(m: Mem, m': Mem, addr: nat, n: nat) {
    |m'| == |m| && forall p, k :: 0 <= p < |m| && 0 <= k < 512 && !Touches(addr, n, p, k) ==> m'[p][k] == m[p][k]
  }

  /** Bytes outside `[addr, addr + n)` are as they were. */
  ghost predicate BytesKept(m: Mem, m': Mem, addr: nat, n: nat) {
    |m'| == |m| && forall x: nat :: x < 4096 * |m| && !(addr <= x < addr + n) ==> ByteAt(m', x) == ByteAt(m, x)
  }

  /** Memory `m` with the byte at `x` replaced. */
  function PutByte(m: Mem, x: nat, b: nat): Mem
    requires x < 4096 * |m|
  {
    Put(m, PageNo(x), Slot(x), SetByte(m[PageNo(x)][Slot(x)], x % 8, b))
  }

  lemma PutByteFacts(m: Mem, x: nat, b: nat)
    requires x < 4096 * |m| && b < 256
    ensures var m' := PutByte(m, x, b);
      |m'| == |m| && ByteAt(m', x) == b && BytesKept(m, m', x, 1) && WordsKept(m, m', x, 1)
  {
    var m', word := PutByte(m, x, b), m[PageNo(x)][Slot(x)];
    SetByteGet(word, x % 8, b, x % 8);
    SameWord(x);
    forall y: nat | y < 4096 * |m| && y != x ensures ByteAt(m', y) == ByteAt(m, y) {
      SetByteGet(word, x % 8, b, y % 8);
      SameWord(y);
    }
  }

  method StoreByte(ram: Ram, x: nat, b: nat)
    requires x < 4096 * |ram.pages| && b < 256
    modifies ram
    ensures |ram.pages| == |old(ram.pages)| && ByteAt(ram.pages, x) == b
    ensures BytesKept(old(ram.pages), ram.pages, x, 1) && WordsKept(old(ram.pages), ram.pages, x, 1)
  {
    PutByteFacts(ram.pages, x, b);
    ram.pages := PutByte(ram.pages, x, b);
  }

  /** An address is its word's address and its byte in the word. */
  lemma SameWord(x: nat)
    ensures x == 4096 * PageNo(x) + 8 * Slot(x) + x % 8
  {
    var o := x % 4096;
    assert x == 4096 * (x / 4096) + o;
    assert o % 8 == x % 8 by { assert x % 8 == (8 * (512 * (x / 4096)) + o) % 8; ModShift(512 * (x / 4096), o); }
  }

  lemma ModShift(a: nat, b: nat)
    ensures (8 * a + b) % 8 == b % 8
  {
  }

  lemma BytesMore(m: Mem, m1: Mem, m2: Mem, addr: nat, n: nat)
    requires BytesKept(m, m1, addr, n) && WordsKept(m, m1, addr, n)
    requires BytesKept(m1, m2, addr + n, 1) && WordsKept(m1, m2, addr + n, 1)
    ensures BytesKept(m, m2, addr, n + 1) && WordsKept(m, m2, addr, n + 1)
  {
  }

  /** `write_bytes(0, n)` at `addr`. */
  method ZeroBytes(ram: Ram, addr: nat, n: nat)
    requires addr + n <= 4096 * |ram.pages|
    modifies ram
    ensures BytesKept(old(ram.pages), ram.pages, addr, n) && WordsKept(old(ram.pages), ram.pages, addr, n)
    ensures forall x: nat :: addr <= x < addr + n ==> ByteAt(ram.pages, x) == 0
  {
    for i := 0 to n
      invariant BytesKept(old(ram.pages), ram.pages, addr, i) && WordsKept(old(ram.pages), ram.pages, addr, i)
      invariant forall x: nat :: addr <= x < addr + i ==> ByteAt(ram.pages, x) == 0
    {
      ghost var m1 := ram.pages;
      StoreByte(ram, addr + i, 0);
      BytesMore(old(ram.pages), m1, ram.pages, addr, i);
    }
  }

  /** The bytes from `dst` on in `m'` are those from `src` on in `m`. */
  ghost predicate Copied(m: Mem, m': Mem, src: nat, dst: nat, n: nat) {
    && src + n <= 4096 * |m| && dst + n <= 4096 * |m'|
    && forall x: nat :: dst <= x < dst + n ==> ByteAt(m', x) == ByteAt(m, src + (x - dst))
  }

  /** What a copy of `n` bytes does: they arrive, and no other byte or word changes. */
  ghost predicate CopyStep(m: Mem, m': Mem, src: nat, dst: nat, n: nat) {
    Copied(m, m', src, dst, n) && BytesKept(m, m', dst, n) && WordsKept(m, m', dst, n)
  }

  /** `copy_nonoverlapping(src, dst, n)`. */
  method CopyBytes(ram: Ram, src: nat, dst: nat, n: nat)
    requires src + n <= 4096 * |ram.pages| && dst + n <= 4096 * |ram.pages|
    requires src + n <= dst || dst + n <= src
    modifies ram
    ensures CopyStep(old(ram.pages), ram.pages, src, dst, n)
  {
    for i := 0 to n
      invariant CopyStep(old(ram.pages), ram.pages, src, dst, i)
    {
      ghost var m1 := ram.pages;
      ByteBound(ram.pages, src + i);
      StoreByte(ram, dst + i, ByteAt(ram.pages, src + i));
      CopyMore(old(ram.pages), m1, ram.pages, src, dst, i);
    }
  }

  /** Any memory can be copied in. */
  lemma {:induction false} CopyExists(m: Mem, src: nat, dst: nat, n: nat) returns (m': Mem)
    requires src + n <= 4096 * |m| && dst + n <= 4096 * |m| && (src + n <= dst || dst + n <= src)
    ensures CopyStep(m, m', src, dst, n)
  {
    if n == 0 {
      m' := m;
    } else {
      var m1 := CopyExists(m, src, dst, n - 1);
      m' := CopyOne(m, m1, src, dst, n - 1);
    }
  }

  lemma CopyOne(m: Mem, m1: Mem, src: nat, dst: nat, n: nat) returns (m': Mem)
    requires CopyStep(m, m1, src, dst, n) && (src + n < dst || dst + n < src)
    requires src + n < 4096 * |m| && dst + n < 4096 * |m|
    ensures CopyStep(m, m', src, dst, n + 1)
  {
    ByteBound(m1, src + n);
    PutByteFacts(m1, dst + n, ByteAt(m1, src + n));
    m' := PutByte(m1, dst + n, ByteAt(m1, src + n));
    CopyMore(m, m1, m', src, dst, n);
  }

  lemma CopyMore(m: Mem, m1: Mem, m2: Mem, src: nat, dst: nat, n: nat)
    requires CopyStep(m, m1, src, dst, n) && BytesKept(m1, m2, dst + n, 1) && WordsKept(m1, m2, dst + n, 1)
    requires src + n < 4096 * |m| && dst + n < 4096 * |m| && (src + n < dst || dst + n < src)
    requires ByteAt(m2, dst + n) == ByteAt(m1, src + n)
    ensures CopyStep(m, m2, src, dst, n + 1)
  {
    BytesMore(m, m1, m2, dst, n);
    CopiedMore(m, m1, m2, src, dst, n);
  }

  lemma CopiedMore(m: Mem, m1: Mem, m2: Mem, src: nat, dst: nat, n: nat)
    requires Copied(m, m1, src, dst, n) && BytesKept(m, m1, dst, n) && BytesKept(m1, m2, dst + n, 1)
    requires src + n < 4096 * |m| && dst + n < 4096 * |m| && (src + n < dst || dst + n < src)
    requires ByteAt(m2, dst + n) == ByteAt(m1, src + n)
    ensures Copied(m, m2, src, dst, n + 1)
  {
    forall x: nat | dst <= x < dst + n + 1 ensures ByteAt(m2, x) == ByteAt(m, src + (x - dst)) {
      if x == dst + n {
        assert ByteAt(m1, src + n) == ByteAt(m, src + n);
      }
    }
  }

  lemma ByteBound(m: Mem, x: nat)
    requires x < 4096 * |m|
    ensures ByteAt(m, x) < 256
  {
    ByteOfBound(m[PageNo(x)][Slot(x)], x % 8);
  }

  lemma {:induction false} ByteOfBound(w: nat, k: nat)
    ensures ByteOf(w, k) < 256
  {
    if k > 0 {
      ByteOfBound(w / 256, k - 1);
    }
  }

  // ---- Bytes of live blocks ----

  /** A small block is made of whole words of one page, a big one of whole pages. */
  ghost predicate InShape(a: nat, l: Layout) {
    && (IsSmall(l) ==> a == 4096 * PageNo(a) + 8 * Slot(a) && Slot(a) + Words(l.size) <= 512)
    && (!IsSmall(l) ==> a == 4096 * PageNo(a))
  }

  /** A live block lies in memory, and its bytes are those of whole words of its chunk or pages. */
  lemma BlockInMemory(m: Mem, list: seq<nat>, zones: seq<nat>, chunks: seq<seq<Chunk>>, live: map<nat, Layout>,
                      others: set<nat>, a: nat, lo: nat, hi: nat)
    requires LiveOk(m, zones, chunks, live) && Partition(list, zones, live, others, lo, hi) && hi <= |m| && a in live
    ensures a + Capacity(live[a]) <= 4096 * |m| && PageNo(a) < |m|
    ensures InShape(a, live[a])
  {
    if IsSmall(live[a]) {
      var i := SmallExtent(m, zones, chunks, live, a);
    } else {
      BigBounds(list, zones, live, others, a, lo, hi);
    }
  }

  /** Writing the first `n` bytes of a block, or fewer than it holds, is a write inside it. */
  lemma WordsInBlock(m: Mem, m': Mem, a: nat, l: Layout, n: nat)
    requires WordsKept(m, m', a, n) && n <= Capacity(l) && PageNo(a) < |m|
    requires InShape(a, l)
    ensures WroteIn(m, m', a, l)
  {
    var p := PageNo(a);
    if IsSmall(l) {
      forall q | 0 <= q < |m| && q != p ensures m'[q] == m[q] {
        PageUntouched(m, m', a, n, q);
      }
      assert m' == m[p := m'[p]];
    } else {
      forall q | 0 <= q < |m| && q !in PagesOf(a, l) ensures m'[q] == m[q] {
        PagesOfIff(a, l, q);
        PageUntouched(m, m', a, n, q);
      }
    }
  }

  lemma PageUntouched(m: Mem, m': Mem, a: nat, n: nat, q: nat)
    requires WordsKept(m, m', a, n) && q < |m| && (4096 * (q + 1) <= a || a + n <= 4096 * q)
    ensures m'[q] == m[q]
  {
    forall k | 0 <= k < 512 ensures m'[q][k] == m[q][k] {
      assert !Touches(a, n, q, k);
    }
  }

  /** A block whose words are kept keeps its bytes. */
  lemma KeptBytes(m: Mem, m': Mem, live: map<nat, Layout>, a: nat, x: nat)
    requires ContentKept(m, m', live) && a in live && a <= x < a + Capacity(live[a]) && x < 4096 * |m|
    requires InShape(a, live[a])
    ensures ByteAt(m', x) == ByteAt(m, x)
  {
    SameWord(x);
    if IsSmall(live[a]) {
      var l := BlockOf(a, live[a]);
      assert l in SmallBlocks(live);
      WordInBlock(a, Words(live[a].size), x);
      assert PayloadKept(m[l.page], m'[l.page], {l.block});
    } else {
      PagesOfIff(a, live[a], PageNo(x));
      assert PageNo(x) in BigPages(live);
    }
  }

  lemma WordInBlock(a: nat, n: nat, x: nat)
    requires a == 4096 * PageNo(a) + 8 * Slot(a) && Slot(a) + n <= 512 && a <= x < a + 8 * n
    ensures PageNo(x) == PageNo(a) && Slot(a) <= Slot(x) < Slot(a) + n
  {
    SameWord(x);
  }

  /** Zeroed pages hold zero bytes. */
  lemma {:induction false} ZeroByte(k: nat)
    ensures ByteOf(0, k) == 0
  {
    if k > 0 {
      ZeroByte(k - 1);
    }
  }

  lemma ZeroPages(m: Mem, a: nat, l: Layout, x: nat)
    requires !IsSmall(l) && l.size > 0 && InShape(a, l) && a <= x < a + l.size && x < 4096 * |m|
    requires forall q :: q in PagesOf(a, l) && q < |m| ==> m[q] == ZeroPage()
    ensures ByteAt(m, x) == 0
  {
    CapacityHolds(l);
    PagesOfIff(a, l, PageNo(x));
    ZeroByte(x % 8);
  }

  lemma ContentTrans(m: Mem, m1: Mem, m2: Mem, live: map<nat, Layout>)
    requires ContentKept(m, m1, live) && ContentKept(m1, m2, live)
    ensures ContentKept(m, m2, live)
  {
    forall l | l in SmallBlocks(live) && l.page < |m| ensures PayloadKept(m[l.page], m2[l.page], {l.block}) {
      assert PayloadKept(m[l.page], m1[l.page], {l.block}) && PayloadKept(m1[l.page], m2[l.page], {l.block});
    }
  }

  /** Fewer blocks to keep. */
  lemma ContentLess(m: Mem, m': Mem, live: map<nat, Layout>, fewer: map<nat, Layout>)
    requires ContentKept(m, m', live) && forall a :: a in fewer ==> a in live && live[a] == fewer[a]
    ensures ContentKept(m, m', fewer)
  {
    forall l | l in SmallBlocks(fewer) ensures l in SmallBlocks(live) {
      var a :| a in fewer && IsSmall(fewer[a]) && l == BlockOf(a, fewer[a]);
      assert a in live && live[a] == fewer[a];
    }
    forall q | q in BigPages(fewer) ensures q in BigPages(live) {
      var a :| a in fewer && q in PagesOf(a, fewer[a]);
      assert a in live && live[a] == fewer[a];
    }
  }

  /** The bytes of block `out` come from block `ptr`, three steps before. */
  lemma MovedByte(m0: Mem, m1: Mem, m2: Mem, m3: Mem, live: map<nat, Layout>, ptr: nat, out: nat, l: Layout, x: nat)
    requires ptr in live && out !in live && live[ptr].size > 0 && live[ptr].size <= Capacity(l)
    requires InShape(ptr, live[ptr]) && InShape(out, l)
    requires |m0| == |m1| == |m2| == |m3|
    requires ptr + Capacity(live[ptr]) <= 4096 * |m0| && out + Capacity(l) <= 4096 * |m0|
    requires ContentKept(m0, m1, live) && ContentKept(m2, m3, live[out := l] - {ptr})
    requires Copied(m1, m2, ptr, out, live[ptr].size) && out <= x < out + live[ptr].size
    ensures live[ptr].size <= Capacity(live[ptr]) && ByteAt(m3, x) == ByteAt(m0, ptr + (x - out))
  {
    var live' := live[out := l] - {ptr};
    CapacityHolds(live[ptr]);
    assert out in live' && live'[out] == l;
    KeptBytes(m2, m3, live', out, x);
    KeptBytes(m0, m1, live, ptr, ptr + (x - out));
  }

  /** Bytes moved from block `ptr` to block `out`, with the heap changing before and after. */
  lemma MovedBytes(m0: Mem, m1: Mem, m2: Mem, m3: Mem, live: map<nat, Layout>, ptr: nat, out: nat, l: Layout)
    requires ptr in live && out !in live && live[ptr].size > 0 && live[ptr].size <= Capacity(l)
    requires InShape(ptr, live[ptr]) && InShape(out, l)
    requires |m0| == |m1| == |m2| == |m3|
    requires ptr + Capacity(live[ptr]) <= 4096 * |m0| && out + Capacity(l) <= 4096 * |m0|
    requires ContentKept(m0, m1, live) && ContentKept(m1, m2, live) && ContentKept(m2, m3, live[out := l] - {ptr})
    requires Copied(m1, m2, ptr, out, live[ptr].size)
    ensures Copied(m0, m3, ptr, out, live[ptr].size) && ContentKept(m0, m3, live - {ptr})
  {
    var n, live' := live[ptr].size, live[out := l] - {ptr};
    CapacityHolds(live[ptr]);
    forall x: nat | out <= x < out + n ensures ByteAt(m3, x) == ByteAt(m0, ptr + (x - out)) {
      MovedByte(m0, m1, m2, m3, live, ptr, out, l, x);
    }
    ContentTrans(m0, m1, m2, live);
    ContentLess(m0, m2, live, live - {ptr});
    ContentLess(m2, m3, live', live - {ptr});
    ContentTrans(m0, m2, m3, live - {ptr});
  }

  // ---- Copies that do not fit ----

  /** A write inside a block leaves every byte behind the block as it was. */
  lemma BehindKept(m: Mem, m': Mem, a: nat, l: Layout, x: nat)
    requires WroteIn(m, m', a, l) && InShape(a, l) && a + Capacity(l) <= x < 4096 * |m|
    ensures |m'| == |m| && ByteAt(m', x) == ByteAt(m, x)
  {
    SameWord(x);
    if IsSmall(l) {
      assert PageNo(x) == PageNo(a) ==> Slot(x) >= Slot(a) + Words(l.size);
    } else {
      PagesOfIff(a, l, PageNo(x));
    }
  }

  /** A byte copied to behind the block `dst`, where it was not already, is a change outside the block. */
  lemma CopyEscapes(m: Mem, m': Mem, src: nat, dst: nat, n: nat, l: Layout, j: nat)
    requires CopyStep(m, m', src, dst, n) && InShape(dst, l) && Capacity(l) <= j < n
    requires dst + j < 4096 * |m| && ByteAt(m, src + j) != ByteAt(m, dst + j)
    ensures !WroteIn(m, m', dst, l)
    ensures |m'| == |m| && m'[PageNo(dst + j)] != m[PageNo(dst + j)]
  {
    assert ByteAt(m', dst + j) == ByteAt(m, src + (dst + j - dst));
    if WroteIn(m, m', dst, l) {
      BehindKept(m, m', dst, l, dst + j);
    }
  }

  /** A memory of `pages` pages that is zero but for the byte 1 at `x`. */
  lemma OneByte(pages: nat, x: nat) returns (m: Mem)
    requires x < 4096 * pages
    ensures |m| == pages && forall y: nat :: y < 4096 * pages ==> ByteAt(m, y) == if y == x then 1 else 0
  {
    var zero: Mem := seq(pages, _ => ZeroPage());
    m := PutByte(zero, x, 1);
    PutByteFacts(zero, x, 1);
    forall y: nat | y < 4096 * pages && y != x ensures ByteAt(m, y) == 0 {
      ZeroByte(y % 8);
      assert ByteAt(m, y) == ByteAt(zero, y);
    }
  }

  /** Copying `n` bytes to the block `dst` of layout `l` stays inside the block for every content of memory
      if and only if the block can hold them. */
  lemma CopyFitsIff(src: nat, dst: nat, n: nat, l: Layout, pages: nat)
    requires src + n <= 4096 * pages && dst + n <= 4096 * pages && (src + n <= dst || dst + n <= src)
    requires InShape(dst, l) && PageNo(dst) < pages
    ensures n <= Capacity(l) <==>
      forall m, m' :: |m| == pages && CopyStep(m, m', src, dst, n) ==> WroteIn(m, m', dst, l)
  {
    if n <= Capacity(l) {
      forall m, m' | |m| == pages && CopyStep(m, m', src, dst, n) ensures WroteIn(m, m', dst, l) {
        WordsInBlock(m, m', dst, l, n);
      }
    } else {
      var c := Capacity(l);
      var m := OneByte(pages, src + c);
      var m' := CopyExists(m, src, dst, n);
      CopyEscapes(m, m', src, dst, n, l, c);
    }
  }
}
