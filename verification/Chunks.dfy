/** A zone of the small allocator as a value: the sequence of chunks that tile one page, and the
    page that represents it. Positions are word indices into the page. */
module Chunks {
  import opened Memory

  /** A header word followed by `words` words of payload. */
  datatype Chunk = Chunk(words: nat, used: bool)

  /** A live payload: `words` words from word `start` on. */
  datatype Block = Block(start: nat, words: nat)

  /** The header word: size in bytes in the low 12 bits, bit 12 set when in use. */
  function Hdr(c: Chunk): nat {
    8 * c.words + if c.used then 4096 else 0
  }

  /** Words taken by the chunks, headers included. */
  function Span(cs: seq<Chunk>): nat {
    if cs == [] then 0 else 1 + cs[0].words + Span(cs[1..])
  }

  /** The number of chunks in use. */
  function Used(cs: seq<Chunk>): nat {
    if cs == [] then 0 else (if cs[0].used then 1 else 0) + Used(cs[1..])
  }

  /** The live payloads of the chunks laid out from word `w` on. */
  function Blocks(w: nat, cs: seq<Chunk>): set<Block>
    decreases |cs|
  {
    if cs == [] then {}
    else (if cs[0].used then {Block(w + 1, cs[0].words)} else {}) + Blocks(w + 1 + cs[0].words, cs[1..])
  }

  /** The headers of the chunks are where the sizes before them say. */
  ghost predicate Tiles(z: Page, w: nat, cs: seq<Chunk>)
    decreases |cs|
  {
    cs == [] || (w < 512 && z[w] == Hdr(cs[0]) && Tiles(z, w + 1 + cs[0].words, cs[1..]))
  }

  ghost predicate UsedNonEmpty(cs: seq<Chunk>) {
    forall i :: 0 <= i < |cs| && cs[i].used ==> cs[i].words >= 1
  }

  /** The chunks tile words 1 to 511 of the page exactly. */
  ghost predicate ZoneShape(z: Page, cs: seq<Chunk>) {
    Tiles(z, 1, cs) && Span(cs) == 511 && UsedNonEmpty(cs)
  }

  /** The live payload words are the same in both pages. */
  ghost predicate PayloadKept(z: Page, z': Page, bs: set<Block>) {
    forall b, k :: b in bs && b.start <= k < b.start + b.words && k < 512 ==> z'[k] == z[k]
  }

  // ---- Concatenation ----

  lemma {:induction false} Cat(z: Page, w: nat, a: seq<Chunk>, b: seq<Chunk>)
    ensures Span(a + b) == Span(a) + Span(b)
    ensures Used(a + b) == Used(a) + Used(b)
    ensures Blocks(w, a + b) == Blocks(w, a) + Blocks(w + Span(a), b)
    ensures Tiles(z, w, a + b) <==> Tiles(z, w, a) && Tiles(z, w + Span(a), b)
    decreases |a|
  {
    if a == [] {
      assert a + b == b;
    } else {
      Cat(z, w + 1 + a[0].words, a[1..], b);
      assert (a + b)[0] == a[0] && (a + b)[1..] == a[1..] + b;
    }
  }

  lemma One(z: Page, w: nat, c: Chunk)
    ensures Span([c]) == 1 + c.words && Used([c]) == (if c.used then 1 else 0)
    ensures Blocks(w, [c]) == if c.used then {Block(w + 1, c.words)} else {}
    ensures Tiles(z, w, [c]) <==> w < 512 && z[w] == Hdr(c)
  {
    assert [c][1..] == [];
  }

  lemma Two(z: Page, w: nat, c: Chunk, d: Chunk)
    ensures Span([c, d]) == 2 + c.words + d.words && Used([c, d]) == Used([c]) + Used([d])
    ensures Blocks(w, [c, d]) == Blocks(w, [c]) + Blocks(w + 1 + c.words, [d])
    ensures Tiles(z, w, [c, d]) <==> Tiles(z, w, [c]) && Tiles(z, w + 1 + c.words, [d])
  {
    assert [c, d] == [c] + [d];
    Cat(z, w, [c], [d]);
    One(z, w, c);
    One(z, w, d);
  }

  lemma Cat3(z: Page, w: nat, a: seq<Chunk>, b: seq<Chunk>, c: seq<Chunk>)
    ensures Span(a + b + c) == Span(a) + Span(b) + Span(c)
    ensures Used(a + b + c) == Used(a) + Used(b) + Used(c)
    ensures Blocks(w, a + b + c) == Blocks(w, a) + Blocks(w + Span(a), b) + Blocks(w + Span(a) + Span(b), c)
    ensures Tiles(z, w, a + b + c) <==>
      Tiles(z, w, a) && Tiles(z, w + Span(a), b) && Tiles(z, w + Span(a) + Span(b), c)
  {
    Cat(z, w, a + b, c);
    Cat(z, w, a, b);
  }

  /** Live payloads lie strictly inside the span of their chunks. */
  lemma {:induction false} BlocksWithin(w: nat, cs: seq<Chunk>)
    ensures forall b :: b in Blocks(w, cs) ==> w < b.start && b.start + b.words <= w + Span(cs)
    decreases |cs|
  {
    if cs != [] {
      BlocksWithin(w + 1 + cs[0].words, cs[1..]);
    }
  }

  /** Live payloads do not overlap. */
  lemma {:induction false} BlocksDisjoint(w: nat, cs: seq<Chunk>, a: Block, b: Block)
    requires a in Blocks(w, cs) && b in Blocks(w, cs) && a != b
    ensures a.start + a.words <= b.start || b.start + b.words <= a.start
    decreases |cs|
  {
    var w' := w + 1 + cs[0].words;
    BlocksWithin(w', cs[1..]);
    if a in Blocks(w', cs[1..]) && b in Blocks(w', cs[1..]) {
      BlocksDisjoint(w', cs[1..], a, b);
    }
  }

  /** The zone of a live payload names it by its start alone. */
  lemma BlockByStart(w: nat, cs: seq<Chunk>, a: Block, b: Block)
    requires a in Blocks(w, cs) && b in Blocks(w, cs) && a.start == b.start
    requires UsedNonEmpty(cs)
    ensures a == b
  {
    BlocksNonEmpty(w, cs);
    if a != b {
      BlocksDisjoint(w, cs, a, b);
    }
  }

  lemma {:induction false} BlocksNonEmpty(w: nat, cs: seq<Chunk>)
    requires UsedNonEmpty(cs)
    ensures forall b :: b in Blocks(w, cs) ==> b.words >= 1
    decreases |cs|
  {
    if cs != [] {
      BlocksNonEmpty(w + 1 + cs[0].words, cs[1..]);
    }
  }

  lemma {:induction false} TilesFrame(z: Page, z': Page, w: nat, cs: seq<Chunk>)
    requires Tiles(z, w, cs)
    requires forall k :: w <= k < w + Span(cs) && k < 512 ==> z'[k] == z[k]
    ensures Tiles(z', w, cs)
    decreases |cs|
  {
    if cs != [] {
      TilesFrame(z, z', w + 1 + cs[0].words, cs[1..]);
    }
  }

  /** Packed-field bound: a zone holds at most 255 chunks in use, and no chunk exceeds 4080 bytes. */
  lemma {:induction false} UsedBound(cs: seq<Chunk>)
    requires UsedNonEmpty(cs)
    ensures 2 * Used(cs) <= Span(cs)
  {
    if cs != [] {
      UsedBound(cs[1..]);
    }
  }

  lemma {:induction false} ChunkBound(cs: seq<Chunk>, i: nat)
    requires i < |cs|
    ensures 1 + cs[i].words <= Span(cs)
  {
    if i > 0 {
      ChunkBound(cs[1..], i - 1);
    }
  }

  // ---- Rewriting the middle of a zone ----

  /** The pages agree outside the words `[lo, hi)`, the zone word aside. */
  ghost predicate SameBut(z: Page, z': Page, lo: nat, hi: nat) {
    forall k :: 1 <= k < 512 && !(lo <= k < hi) ==> z'[k] == z[k]
  }

  /** Replacing the chunks `mid` by `mid'` over the same words leaves a zone. */
  lemma Rewrite(z: Page, z': Page, pre: seq<Chunk>, mid: seq<Chunk>, mid': seq<Chunk>, post: seq<Chunk>)
    requires ZoneShape(z, pre + mid + post)
    requires Span(mid') == Span(mid) && UsedNonEmpty(mid')
    requires Tiles(z', 1 + Span(pre), mid')
    requires SameBut(z, z', 1 + Span(pre), 1 + Span(pre) + Span(mid))
    ensures ZoneShape(z', pre + mid' + post)
  {
    RewriteTiles(z, z', pre, mid, mid', post);
    RewriteNonEmpty(pre, mid, mid', post);
  }

  lemma RewriteTiles(z: Page, z': Page, pre: seq<Chunk>, mid: seq<Chunk>, mid': seq<Chunk>, post: seq<Chunk>)
    requires Tiles(z, 1, pre + mid + post) && Tiles(z', 1 + Span(pre), mid')
    requires Span(mid') == Span(mid)
    requires SameBut(z, z', 1 + Span(pre), 1 + Span(pre) + Span(mid))
    ensures Tiles(z', 1, pre + mid' + post)
    ensures Span(pre + mid' + post) == Span(pre + mid + post)
  {
    Cat3(z, 1, pre, mid, post);
    Cat3(z', 1, pre, mid', post);
    TilesFrame(z, z', 1, pre);
    TilesFrame(z, z', 1 + Span(pre) + Span(mid), post);
  }

  /** The live payloads before and after the `n` words that follow `pre`. */
  function Around(pre: seq<Chunk>, n: nat, post: seq<Chunk>): set<Block> {
    Blocks(1, pre) + Blocks(1 + Span(pre) + n, post)
  }

  /** The live payloads of a zone are those of its middle and those around it. */
  lemma MiddleBlocks(pre: seq<Chunk>, mid: seq<Chunk>, post: seq<Chunk>)
    ensures Used(pre + mid + post) == Used(pre) + Used(mid) + Used(post)
    ensures Blocks(1, pre + mid + post) == Around(pre, Span(mid), post) + Blocks(1 + Span(pre), mid)
    ensures forall b :: b in Around(pre, Span(mid), post) ==>
      b.start + b.words <= 1 + Span(pre) || 1 + Span(pre) + Span(mid) < b.start
  {
    MiddleSplit(pre, mid, post);
    AroundApart(pre, Span(mid), post);
  }

  lemma MiddleSplit(pre: seq<Chunk>, mid: seq<Chunk>, post: seq<Chunk>)
    ensures Used(pre + mid + post) == Used(pre) + Used(mid) + Used(post)
    ensures Blocks(1, pre + mid + post) == Around(pre, Span(mid), post) + Blocks(1 + Span(pre), mid)
  {
    Cat(ZeroPage(), 1, pre, mid);
    Cat(ZeroPage(), 1, pre + mid, post);
  }

  lemma AroundApart(pre: seq<Chunk>, span: nat, post: seq<Chunk>)
    ensures forall b :: b in Around(pre, span, post) ==>
      b.start + b.words <= 1 + Span(pre) || 1 + Span(pre) + span < b.start
  {
    BlocksWithin(1, pre);
    BlocksWithin(1 + Span(pre) + span, post);
  }

  /** Replacing a middle without live payloads by one with the single live payload `b`. */
  lemma MiddleGains(pre: seq<Chunk>, mid: seq<Chunk>, mid': seq<Chunk>, post: seq<Chunk>, b: Block)
    requires Span(mid') == Span(mid) && Used(mid) == 0 && Used(mid') == 1
    requires Blocks(1 + Span(pre), mid) == {} && Blocks(1 + Span(pre), mid') == {b}
    requires 1 + Span(pre) < b.start <= 1 + Span(pre) + Span(mid) && b.words >= 1
    ensures var cs, cs' := pre + mid + post, pre + mid' + post;
      && Used(cs') == Used(cs) + 1 && Blocks(1, cs) == Around(pre, Span(mid), post)
      && b !in Blocks(1, cs) && Blocks(1, cs') == Blocks(1, cs) + {b}
  {
    MiddleBlocks(pre, mid, post);
    MiddleBlocks(pre, mid', post);
  }

  /** ... and every live payload before and after them as it was. */
  lemma RewritePayload(z: Page, z': Page, pre: seq<Chunk>, n: nat, post: seq<Chunk>)
    requires SameBut(z, z', 1 + Span(pre), 1 + Span(pre) + n)
    ensures PayloadKept(z, z', Around(pre, n, post))
  {
    BlocksWithin(1, pre);
    BlocksWithin(1 + Span(pre) + n, post);
  }

  lemma RewriteNonEmpty(pre: seq<Chunk>, mid: seq<Chunk>, mid': seq<Chunk>, post: seq<Chunk>)
    requires UsedNonEmpty(pre + mid + post) && UsedNonEmpty(mid')
    ensures UsedNonEmpty(pre + mid' + post)
  {
    var a, b := pre + mid + post, pre + mid' + post;
    forall i | 0 <= i < |b| && b[i].used ensures b[i].words >= 1 {
      if i < |pre| {
        assert b[i] == a[i];
      } else if i < |pre| + |mid'| {
        assert b[i] == mid'[i - |pre|];
      } else {
        assert b[i] == a[i - |mid'| + |mid|];
      }
    }
  }
}
