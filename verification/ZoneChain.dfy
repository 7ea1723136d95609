/** The chain of zones of the small allocator, and what freeing a chunk does to its zone. */
module ZoneChain {
  import opened Memory
  import opened Chunks
  import opened Zones
  import opened FreeList

  function NextZone(zones: seq<nat>, i: nat): nat
    requires i < |zones|
  {
    if i + 1 < |zones| then 4096 * zones[i + 1] else 0
  }

  ghost predicate Distinct(zones: seq<nat>) {
    forall i, j :: 0 <= i < j < |zones| ==> zones[i] != zones[j]
  }

  ghost predicate ZoneAt(m: Mem, zones: seq<nat>, chunks: seq<seq<Chunk>>, i: nat)
    requires i < |zones| == |chunks|
  {
    zones[i] < |m| && ZoneOk(m[zones[i]], NextZone(zones, i), chunks[i])
  }

  /** Each zone's word leads to the next zone, and each zone is tiled by its chunks. */
  ghost predicate Chain(m: Mem, zones: seq<nat>, chunks: seq<seq<Chunk>>) {
    && |zones| == |chunks| && Distinct(zones)
    && (forall i :: 0 <= i < |zones| ==> 1 <= zones[i] < |m|)
    && (forall i {:trigger ZoneAt(m, zones, chunks, i)} :: 0 <= i < |zones| ==> ZoneAt(m, zones, chunks, i))
  }

  /** Rewriting one zone's page, its next zone unchanged. */
  lemma ChainUpdate(m: Mem, zones: seq<nat>, chunks: seq<seq<Chunk>>, i: nat, z: Page, cs: seq<Chunk>)
    requires Chain(m, zones, chunks) && i < |zones| && ZoneOk(z, NextZone(zones, i), cs)
    ensures Chain(m[zones[i] := z], zones, chunks[i := cs])
  {
    var m', chunks' := m[zones[i] := z], chunks[i := cs];
    forall k | 0 <= k < |zones| ensures ZoneAt(m', zones, chunks', k) {
      assert ZoneAt(m, zones, chunks, k);
    }
  }

  lemma ChainFrame(m: Mem, m': Mem, zones: seq<nat>, chunks: seq<seq<Chunk>>, s: set<nat>)
    requires Chain(m, zones, chunks) && SameOutside(m, m', s) && Elems(zones) !! s
    ensures Chain(m', zones, chunks)
  {
    forall k | 0 <= k < |zones| ensures ZoneAt(m', zones, chunks, k) {
      assert ZoneAt(m, zones, chunks, k);
      assert zones[k] in Elems(zones);
    }
  }

  /** Appending the fresh zone `g` after the last one. */
  lemma ChainGrow(m: Mem, m': Mem, zones: seq<nat>, chunks: seq<seq<Chunk>>, g: nat, cs: seq<Chunk>)
    requires Chain(m, zones, chunks) && zones != [] && g !in zones && 1 <= g < |m| && |m'| == |m|
    requires var l := |zones| - 1; m'[zones[l]] == m[zones[l]][0 := 4096 * g + Used(chunks[l])]
    requires forall k :: 0 <= k < |zones| - 1 ==> m'[zones[k]] == m[zones[k]]
    requires ZoneOk(m'[g], 0, cs)
    ensures Chain(m', zones + [g], chunks + [cs])
  {
    var zs, cks, l := zones + [g], chunks + [cs], |zones| - 1;
    forall k | 0 <= k < |zs| ensures ZoneAt(m', zs, cks, k) {
      if k < |zones| {
        assert ZoneAt(m, zones, chunks, k);
      }
      if k == l {
        TilesFrame(m[zones[l]], m'[zones[l]], 1, chunks[l]);
      }
    }
  }

  /** Dropping zone `i` from the chain: its predecessor is linked to its successor. */
  lemma ChainDrop(m: Mem, m': Mem, zones: seq<nat>, chunks: seq<seq<Chunk>>, i: nat)
    requires Chain(m, zones, chunks) && 1 <= i < |zones| && |m'| == |m|
    requires m'[zones[i - 1]] == m[zones[i - 1]][0 := NextZone(zones, i) + Used(chunks[i - 1])]
    requires forall k :: 0 <= k < |zones| && k != i && k != i - 1 ==> m'[zones[k]] == m[zones[k]]
    ensures Chain(m', zones[..i] + zones[i + 1..], chunks[..i] + chunks[i + 1..])
  {
    var zs, cs := zones[..i] + zones[i + 1..], chunks[..i] + chunks[i + 1..];
    forall k | 0 <= k < |zs| ensures ZoneAt(m', zs, cs, k) {
      var o := if k < i then k else k + 1;
      assert ZoneAt(m, zones, chunks, o);
      if k == i - 1 {
        assert NextZone(zs, k) == NextZone(zones, i);
        TilesFrame(m[zones[k]], m'[zones[k]], 1, chunks[k]);
      } else {
        assert NextZone(zs, k) == NextZone(zones, o);
      }
    }
  }

  // ---- Freeing a chunk ----

  /** The zone has lost the live payload `b`; the others are untouched. */
  ghost predicate Freed(z: Page, nx: nat, cs: seq<Chunk>, b: Block, z': Page, cs': seq<Chunk>) {
    && ZoneOk(z', nx, cs') && Used(cs) == Used(cs') + 1
    && b in Blocks(1, cs) && Blocks(1, cs') == Blocks(1, cs) - {b}
    && PayloadKept(z, z', Blocks(1, cs'))
  }

  /** Freeing chunk `i` joins it to the next chunk. */
  predicate JoinsNext(cs: seq<Chunk>, i: nat)
    requires i < |cs|
  {
    Used(cs) > 1 && i + 1 < |cs| && !cs[i + 1].used
  }

  /** The chunks after chunk `i` has been freed: it is joined to the next one when that is free and the zone
      keeps a chunk in use, and stays on its own otherwise. */
  function FreedChunks(cs: seq<Chunk>, i: nat): seq<Chunk>
    requires i < |cs|
  {
    if JoinsNext(cs, i) then cs[..i] + [Chunk(cs[i].words + 1 + cs[i + 1].words, false)] + cs[i + 2..]
    else cs[..i] + [Chunk(cs[i].words, false)] + cs[i + 1..]
  }

  /** The page after chunk `i`, of `k` words and with its header at word `w`, has been freed: one less in the
      count, the joined header zeroed, and the new header. */
  function FreedPage(z: Page, w: nat, cs: seq<Chunk>, i: nat): Page
    requires i < |cs| && z[0] >= 1 && 1 <= w && w + 1 + cs[i].words <= 512 && (JoinsNext(cs, i) ==> w + 1 + cs[i].words < 512)
  {
    var z1 := z[0 := z[0] - 1];
    if JoinsNext(cs, i) then z1[w + 1 + cs[i].words := 0][w := 8 * (cs[i].words + 1 + cs[i + 1].words)]
    else z1[w := 8 * cs[i].words]
  }

  /** Chunk `i` is the one with the live payload `b`, and page and chunks are exactly those after it is freed. */
  ghost predicate FreedBy(z: Page, cs: seq<Chunk>, b: Block, i: nat, z': Page, cs': seq<Chunk>) {
    && i < |cs| && cs[i] == Chunk(b.words, true) && b.start == 2 + Span(cs[..i]) && cs' == FreedChunks(cs, i)
    && z[0] >= 1 && b.start + b.words <= 512 && (JoinsNext(cs, i) ==> b.start + b.words < 512)
    && z' == FreedPage(z, b.start - 1, cs, i)
  }

  /** The zone has lost the live payload `b`, in exactly the way the code frees it. */
  ghost predicate FreedExactly(z: Page, nx: nat, cs: seq<Chunk>, b: Block, z': Page, cs': seq<Chunk>) {
    Freed(z, nx, cs, b, z', cs') && exists i: nat :: FreedBy(z, cs, b, i, z', cs')
  }

  /** A freed chunk has a free chunk behind it exactly when it was joined to one that had: only one chunk is
      absorbed, so that neighbours left over by earlier frees stay for the next scan. */
  lemma FreedNeighbour(cs: seq<Chunk>, i: nat)
    requires i < |cs| && Used(cs) > 1
    ensures var cs' := FreedChunks(cs, i);
      && i < |cs'| && !cs'[i].used
      && ((i + 1 < |cs'| && !cs'[i + 1].used) <==> (i + 2 < |cs| && !cs[i + 1].used && !cs[i + 2].used))
  {
  }

  lemma UsedFour(x: Chunk, y: Chunk, z: Chunk, w: Chunk)
    ensures Used([x, y, z, w]) ==
      (if x.used then 1 else 0) + (if y.used then 1 else 0) + (if z.used then 1 else 0) + (if w.used then 1 else 0)
  {
    assert [x, y, z, w][1..] == [y, z, w] && [y, z, w][1..] == [z, w] && [z, w][1..] == [w] && [w][1..] == [];
    assert Used([w]) == if w.used then 1 else 0;
    assert Used([z, w]) == (if z.used then 1 else 0) + Used([w]);
    assert Used([y, z, w]) == (if y.used then 1 else 0) + Used([z, w]);
  }

  /** So it happens: freeing the second, the third and then the first of four chunks leaves the joined chunk
      with a free one behind it. */
  lemma FreeNeighbourRemains(a: nat, b: nat, c: nat, d: nat)
    ensures var cs := [Chunk(a, true), Chunk(b, true), Chunk(c, true), Chunk(d, true)];
      FreedChunks(FreedChunks(FreedChunks(cs, 1), 2), 0) == [Chunk(a + 1 + b, false), Chunk(c, false), Chunk(d, true)]
  {
    var x, y, z, w := Chunk(a, true), Chunk(b, true), Chunk(c, true), Chunk(d, true);
    var y', z' := Chunk(b, false), Chunk(c, false);
    UsedFour(x, y, z, w);
    UsedFour(x, y', z, w);
    UsedFour(x, y', z', w);
    assert FreedChunks([x, y, z, w], 1) == [x, y', z, w];
    assert FreedChunks([x, y', z, w], 2) == [x, y', z', w];
    assert FreedChunks([x, y', z', w], 0) == [Chunk(a + 1 + b, false), z', w];
  }

  /** The chunk that holds a live payload. */
  lemma {:induction false} FindChunk(w: nat, cs: seq<Chunk>, b: Block) returns (i: nat)
    requires b in Blocks(w, cs)
    ensures i < |cs| && cs[i] == Chunk(b.words, true) && b.start == w + Span(cs[..i]) + 1
    decreases |cs|
  {
    if cs[0].used && b == Block(w + 1, cs[0].words) {
      i := 0;
    } else {
      var i' := FindChunk(w + 1 + cs[0].words, cs[1..], b);
      i := i' + 1;
      assert cs[..i][0] == cs[0] && cs[..i][1..] == cs[1..][..i'];
    }
  }

  /** Replacing a middle with the single live payload `b` by one without live payloads. */
  lemma MiddleLoses(z: Page, z': Page, nx: nat, pre: seq<Chunk>, mid: seq<Chunk>, mid': seq<Chunk>,
                    post: seq<Chunk>, b: Block)
    requires ZoneOk(z, nx, pre + mid + post) && Span(mid') == Span(mid)
    requires Used(mid) == 1 && Used(mid') == 0 && UsedNonEmpty(mid')
    requires Blocks(1 + Span(pre), mid) == {b} && Blocks(1 + Span(pre), mid') == {}
    requires 1 + Span(pre) < b.start <= 1 + Span(pre) + Span(mid) && b.words >= 1
    requires Tiles(z', 1 + Span(pre), mid') && z'[0] + 1 == z[0]
    requires SameBut(z, z', 1 + Span(pre), 1 + Span(pre) + Span(mid))
    ensures Freed(z, nx, pre + mid + post, b, z', pre + mid' + post)
  {
    MiddleGains(pre, mid', mid, post, b);
    Rewrite(z, z', pre, mid, mid', post);
    RewritePayload(z, z', pre, Span(mid), post);
  }

  /** `free` without a merge. */
  lemma FreeAlone(z: Page, z': Page, nx: nat, pre: seq<Chunk>, n: nat, post: seq<Chunk>)
    requires ZoneOk(z, nx, pre + [Chunk(n, true)] + post) && n >= 1 && 1 + Span(pre) < 512
    requires z'[0] + 1 == z[0] && z'[1 + Span(pre)] == Hdr(Chunk(n, false))
    requires SameBut(z, z', 1 + Span(pre), 2 + Span(pre))
    ensures Freed(z, nx, pre + [Chunk(n, true)] + post, Block(2 + Span(pre), n), z', pre + [Chunk(n, false)] + post)
  {
    var w := 1 + Span(pre);
    One(z, w, Chunk(n, true));
    One(z', w, Chunk(n, false));
    MiddleLoses(z, z', nx, pre, [Chunk(n, true)], [Chunk(n, false)], post, Block(w + 1, n));
  }

  /** `free` with the next chunk, free too, merged in. */
  lemma FreeMerged(z: Page, z': Page, nx: nat, pre: seq<Chunk>, n: nat, d: Chunk, post: seq<Chunk>)
    requires ZoneOk(z, nx, pre + [Chunk(n, true), d] + post) && n >= 1 && 1 + Span(pre) < 512 && !d.used
    requires z'[0] + 1 == z[0] && z'[1 + Span(pre)] == Hdr(Chunk(n + 1 + d.words, false))
    requires SameBut(z, z', 1 + Span(pre), 3 + Span(pre) + n)
    ensures Freed(z, nx, pre + [Chunk(n, true), d] + post, Block(2 + Span(pre), n), z',
                  pre + [Chunk(n + 1 + d.words, false)] + post)
  {
    var w := 1 + Span(pre);
    One(z, w, Chunk(n, true));
    One(z, w + 1 + n, d);
    Two(z, w, Chunk(n, true), d);
    One(z', w, Chunk(n + 1 + d.words, false));
    MiddleLoses(z, z', nx, pre, [Chunk(n, true), d], [Chunk(n + 1 + d.words, false)], post, Block(w + 1, n));
  }

  // ---- The live payloads of a chain ----

  datatype LiveBlock = LiveBlock(page: nat, block: Block)

  ghost function Live(zones: seq<nat>, chunks: seq<seq<Chunk>>): set<LiveBlock>
    requires |zones| == |chunks|
  {
    set i, b | 0 <= i < |zones| && b in Blocks(1, chunks[i]) :: LiveBlock(zones[i], b)
  }

  /** Every word of the live payloads `s` is the same in both memories. */
  ghost predicate LiveKept(m: Mem, m': Mem, s: set<LiveBlock>) {
    |m'| == |m| && forall l :: l in s && l.page < |m| ==> PayloadKept(m[l.page], m'[l.page], {l.block})
  }

  /** A live payload belongs to one zone. */
  lemma LiveAt(zones: seq<nat>, chunks: seq<seq<Chunk>>, i: nat, b: Block)
    requires |zones| == |chunks| && Distinct(zones) && i < |zones|
    ensures LiveBlock(zones[i], b) in Live(zones, chunks) <==> b in Blocks(1, chunks[i])
  {
  }

  /** The live payloads after zone `i` goes from `chunks[i]` to `cs`. */
  lemma LiveUpdate(zones: seq<nat>, chunks: seq<seq<Chunk>>, i: nat, cs: seq<Chunk>, l: LiveBlock)
    requires |zones| == |chunks| && Distinct(zones) && i < |zones|
    ensures l in Live(zones, chunks[i := cs]) <==>
      if l.page == zones[i] then l.block in Blocks(1, cs) else l in Live(zones, chunks)
  {
    var cks := chunks[i := cs];
    if l.page == zones[i] {
      LiveAt(zones, cks, i, l.block);
      assert LiveBlock(zones[i], l.block) == l;
    } else {
      if k :| 0 <= k < |zones| && zones[k] == l.page {
        LiveAt(zones, cks, k, l.block);
        LiveAt(zones, chunks, k, l.block);
        assert LiveBlock(zones[k], l.block) == l;
      }
    }
  }

  lemma LiveGain(zones: seq<nat>, chunks: seq<seq<Chunk>>, i: nat, cs: seq<Chunk>, b: Block)
    requires |zones| == |chunks| && Distinct(zones) && i < |zones|
    requires Blocks(1, cs) == Blocks(1, chunks[i]) + {b}
    ensures Live(zones, chunks[i := cs]) == Live(zones, chunks) + {LiveBlock(zones[i], b)}
  {
    forall l ensures l in Live(zones, chunks[i := cs]) <==> l in Live(zones, chunks) + {LiveBlock(zones[i], b)} {
      LiveUpdate(zones, chunks, i, cs, l);
      LiveAt(zones, chunks, i, l.block);
    }
  }

  lemma LiveLose(zones: seq<nat>, chunks: seq<seq<Chunk>>, i: nat, cs: seq<Chunk>, b: Block)
    requires |zones| == |chunks| && Distinct(zones) && i < |zones|
    requires Blocks(1, cs) == Blocks(1, chunks[i]) - {b}
    ensures Live(zones, chunks[i := cs]) == Live(zones, chunks) - {LiveBlock(zones[i], b)}
  {
    forall l ensures l in Live(zones, chunks[i := cs]) <==> l in Live(zones, chunks) - {LiveBlock(zones[i], b)} {
      LiveUpdate(zones, chunks, i, cs, l);
      LiveAt(zones, chunks, i, l.block);
    }
  }

  lemma LiveSame(zones: seq<nat>, chunks: seq<seq<Chunk>>, i: nat, cs: seq<Chunk>)
    requires |zones| == |chunks| && Distinct(zones) && i < |zones|
    requires Blocks(1, cs) == Blocks(1, chunks[i])
    ensures Live(zones, chunks[i := cs]) == Live(zones, chunks)
  {
    forall l ensures l in Live(zones, chunks[i := cs]) <==> l in Live(zones, chunks) {
      LiveUpdate(zones, chunks, i, cs, l);
      LiveAt(zones, chunks, i, l.block);
    }
  }

  lemma LiveGrow(zones: seq<nat>, chunks: seq<seq<Chunk>>, g: nat, cs: seq<Chunk>)
    requires |zones| == |chunks| && Blocks(1, cs) == {}
    ensures Live(zones + [g], chunks + [cs]) == Live(zones, chunks)
  {
    var zs, cks := zones + [g], chunks + [cs];
    forall l | l in Live(zones, chunks) ensures l in Live(zs, cks) {
      var i :| 0 <= i < |zones| && zones[i] == l.page && l.block in Blocks(1, chunks[i]);
      assert zs[i] == l.page && l.block in Blocks(1, cks[i]);
    }
  }

  /** Rewriting zone `i` keeps the live payloads outside it, and inside it those it keeps. */
  lemma KeptInZone(m: Mem, zones: seq<nat>, chunks: seq<seq<Chunk>>, i: nat, z: Page, bs: set<Block>, s: set<LiveBlock>)
    requires |zones| == |chunks| && Distinct(zones) && i < |zones| && zones[i] < |m|
    requires s <= Live(zones, chunks) && PayloadKept(m[zones[i]], z, bs)
    requires forall b :: LiveBlock(zones[i], b) in s ==> b in bs
    ensures LiveKept(m, m[zones[i] := z], s)
  {
    forall l | l in s && l.page < |m| ensures PayloadKept(m[l.page], m[zones[i] := z][l.page], {l.block}) {
      assert l == LiveBlock(l.page, l.block);
    }
  }

  /** Memory outside the zones' pages does not matter to the live payloads. */
  lemma KeptOutside(m: Mem, m': Mem, zones: seq<nat>, chunks: seq<seq<Chunk>>, s: set<nat>)
    requires |zones| == |chunks| && SameOutside(m, m', s) && Elems(zones) !! s
    ensures LiveKept(m, m', Live(zones, chunks))
  {
    forall l | l in Live(zones, chunks) && l.page < |m| ensures PayloadKept(m[l.page], m'[l.page], {l.block}) {
      assert l.page in Elems(zones);
    }
  }

  /** Freeing a chunk of zone `i` takes its payload off the live ones and touches no other. */
  lemma FreedLive(m: Mem, zones: seq<nat>, chunks: seq<seq<Chunk>>, i: nat, b: Block, z: Page, cs: seq<Chunk>)
    requires Chain(m, zones, chunks) && i < |zones|
    requires Freed(m[zones[i]], NextZone(zones, i), chunks[i], b, z, cs)
    ensures Live(zones, chunks[i := cs]) == Live(zones, chunks) - {LiveBlock(zones[i], b)}
    ensures LiveKept(m, m[zones[i] := z], Live(zones, chunks[i := cs]))
  {
    LiveLose(zones, chunks, i, cs, b);
    var s := Live(zones, chunks[i := cs]);
    forall c | LiveBlock(zones[i], c) in s ensures c in Blocks(1, cs) {
      LiveAt(zones, chunks[i := cs], i, c);
    }
    KeptInZone(m, zones, chunks, i, z, Blocks(1, cs), s);
  }
}
