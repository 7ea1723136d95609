/** First fit over the maximal runs of adjacent free chunks, and the states the zone scan goes
    through while it coalesces its way there. */
module FirstFit {
  import opened Memory
  import opened Chunks

  ghost predicate AllFree(cs: seq<Chunk>) {
    forall i :: 0 <= i < |cs| ==> !cs[i].used
  }

  /** Chunk `j` starts a maximal run of free chunks. */
  ghost predicate RunStart(cs: seq<Chunk>, j: nat) {
    j < |cs| && !cs[j].used && (j > 0 ==> cs[j - 1].used)
  }

  /** The run that starts at `j` coalesces to at least `n` words of payload: sizes plus one word
      for each absorbed header. */
  ghost predicate RunFits(cs: seq<Chunk>, j: nat, n: nat) {
    exists k :: j < k <= |cs| && AllFree(cs[j..k]) && Span(cs[j..k]) > n
  }

  ghost predicate NoFitBefore(cs: seq<Chunk>, n: nat, j: nat) {
    forall i :: 0 <= i < j && RunStart(cs, i) ==> !RunFits(cs, i, n)
  }

  ghost predicate FirstFitAt(cs: seq<Chunk>, n: nat, j: nat) {
    RunStart(cs, j) && RunFits(cs, j, n) && NoFitBefore(cs, n, j)
  }

  ghost predicate NoFit(cs: seq<Chunk>, n: nat) {
    NoFitBefore(cs, n, |cs|)
  }

  lemma FirstFitUnique(cs: seq<Chunk>, n: nat, i: nat, j: nat)
    requires FirstFitAt(cs, n, i) && FirstFitAt(cs, n, j)
    ensures i == j
  {
  }

  // ---- Coalescing ----

  /** The chunks with every run of adjacent free ones joined into one. */
  function Coalesced(cs: seq<Chunk>): seq<Chunk>
    decreases |cs|
  {
    if cs == [] then []
    else
      var r, c := Coalesced(cs[..|cs| - 1]), cs[|cs| - 1];
      if r != [] && !r[|r| - 1].used && !c.used then r[..|r| - 1] + [Chunk(r[|r| - 1].words + 1 + c.words, false)]
      else r + [c]
  }

  /** Chunk `i` and the next one are not both free. */
  ghost predicate NoPairAt(cs: seq<Chunk>, i: nat) {
    i + 1 < |cs| ==> cs[i].used || cs[i + 1].used
  }

  /** No two free chunks are neighbours after coalescing. */
  lemma {:induction false} CoalescedApart(cs: seq<Chunk>, i: nat)
    ensures NoPairAt(Coalesced(cs), i)
    decreases |cs|
  {
    if cs != [] {
      var r := Coalesced(cs[..|cs| - 1]);
      CoalescedApart(cs[..|cs| - 1], i);
      assert NoPairAt(r, i);
    }
  }

  lemma CoalescedOne(cs: seq<Chunk>)
    requires cs != []
    ensures Coalesced(cs[..1]) == [cs[0]]
  {
    assert cs[..1] == [cs[0]] && [cs[0]][..0] == [];
    assert Coalesced([]) == [];
  }

  /** One chunk more. */
  lemma CoalescedMore(cs: seq<Chunk>, k: nat, pre: seq<Chunk>, cur: Chunk)
    requires k < |cs| && Coalesced(cs[..k]) == pre + [cur]
    ensures Coalesced(cs[..k + 1]) ==
      if !cur.used && !cs[k].used then pre + [Chunk(cur.words + 1 + cs[k].words, false)] else pre + [cur] + [cs[k]]
  {
    assert cs[..k + 1][..k] == cs[..k] && cs[..k + 1][k] == cs[k];
    var r := pre + [cur];
    assert r[|r| - 1] == cur && r[..|r| - 1] == pre;
  }

  // ---- The scan ----

  /** Where the scan stands in the original chunks `cs`: the cursor is on a chunk `cur` that
      stands for `cs[j..k]`, what is before it has been coalesced, no run that starts before `j` fits, and
      neither does any part of `cs[j..k]` before its last chunk. */
  ghost predicate Cursor(cs: seq<Chunk>, n: nat, pre: seq<Chunk>, cur: Chunk, j: nat, k: nat) {
    && j < k <= |cs|
    && Span(pre) == Span(cs[..j]) && 1 + cur.words == Span(cs[j..k])
    && (cur.used ==> k == j + 1 && cur == cs[j])
    && (!cur.used ==> AllFree(cs[j..k]) && RunStart(cs, j))
    && NoFitBefore(cs, n, j)
    && pre + [cur] == Coalesced(cs[..k]) && (j < k - 1 ==> Span(cs[j..k - 1]) <= n)
  }

  /** The chunks `cs'` in page `z'` hold the same live payloads as `cs` in `z`, word for word. */
  ghost predicate SameLive(z: Page, cs: seq<Chunk>, z': Page, cs': seq<Chunk>) {
    && z'[0] == z[0] && ZoneShape(z', cs')
    && Used(cs') == Used(cs) && Blocks(1, cs') == Blocks(1, cs)
    && PayloadKept(z, z', Blocks(1, cs))
  }

  lemma SpanSlices(cs: seq<Chunk>, i: nat, j: nat, k: nat)
    requires i <= j <= k <= |cs|
    ensures Span(cs[i..k]) == Span(cs[i..j]) + Span(cs[j..k])
  {
    assert cs[i..k] == cs[i..j] + cs[j..k];
    Cat(ZeroPage(), 0, cs[i..j], cs[j..k]);
  }

  /** A maximal run too short for `n` does not fit. */
  lemma ShortRun(cs: seq<Chunk>, n: nat, j: nat, k: nat)
    requires j < k <= |cs| && AllFree(cs[j..k]) && Span(cs[j..k]) <= n
    requires k < |cs| ==> cs[k].used
    ensures !RunFits(cs, j, n)
  {
    forall h | j < h <= |cs| && AllFree(cs[j..h]) ensures Span(cs[j..h]) <= n {
      if h <= k {
        SpanSlices(cs, j, h, k);
      } else {
        FreeInside(cs, j, h, k);
      }
    }
  }

  lemma FreeInside(cs: seq<Chunk>, j: nat, h: nat, k: nat)
    requires j <= k < h <= |cs| && AllFree(cs[j..h])
    ensures !cs[k].used
  {
    assert cs[j..h][k - j] == cs[k];
  }

  lemma CursorStart(cs: seq<Chunk>, n: nat)
    requires cs != []
    ensures Cursor(cs, n, [], cs[0], 0, 1)
  {
    assert cs[0..1] == [cs[0]] && cs[..0] == [];
    assert Span([cs[0]]) == 1 + cs[0].words;
    CoalescedOne(cs);
  }

  /** Passing a chunk that is in use or too small, when it cannot be merged with the next one. */
  lemma CursorAdvance(cs: seq<Chunk>, n: nat, pre: seq<Chunk>, cur: Chunk, j: nat, k: nat)
    requires Cursor(cs, n, pre, cur, j, k) && k < |cs|
    requires cur.used || cur.words < n
    requires cur.used || cs[k].used
    ensures Cursor(cs, n, pre + [cur], cs[k], k, k + 1)
  {
    SpanSlices(cs, 0, j, k);
    assert cs[0..j] == cs[..j] && cs[0..k] == cs[..k];
    Cat(ZeroPage(), 0, pre, [cur]);
    assert Span([cur]) == 1 + cur.words;
    assert cs[k..k + 1] == [cs[k]] && Span([cs[k]]) == 1 + cs[k].words;
    CursorPassed(cs, n, pre, cur, j, k);
    CoalescedMore(cs, k, pre, cur);
    if !cs[k].used {
      assert cs[k - 1].used;
    }
  }

  lemma CursorPassed(cs: seq<Chunk>, n: nat, pre: seq<Chunk>, cur: Chunk, j: nat, k: nat)
    requires Cursor(cs, n, pre, cur, j, k)
    requires cur.used || cur.words < n
    requires cur.used || k == |cs| || cs[k].used
    ensures NoFitBefore(cs, n, k)
  {
    if !cur.used {
      ShortRun(cs, n, j, k);
      forall i | j < i < k ensures !RunStart(cs, i) {
        assert cs[j..k][i - 1 - j] == cs[i - 1];
      }
    }
  }

  /** Absorbing the next free chunk. */
  lemma CursorMerge(cs: seq<Chunk>, n: nat, pre: seq<Chunk>, cur: Chunk, j: nat, k: nat)
    requires Cursor(cs, n, pre, cur, j, k) && k < |cs| && !cur.used && !cs[k].used && cur.words < n
    ensures Cursor(cs, n, pre, Chunk(cur.words + 1 + cs[k].words, false), j, k + 1)
  {
    SpanSlices(cs, j, k, k + 1);
    assert cs[k..k + 1] == [cs[k]] && Span([cs[k]]) == 1 + cs[k].words;
    assert cs[j..k + 1] == cs[j..k] + [cs[k]];
    CoalescedMore(cs, k, pre, cur);
  }

  lemma CursorFound(cs: seq<Chunk>, n: nat, pre: seq<Chunk>, cur: Chunk, j: nat, k: nat)
    requires Cursor(cs, n, pre, cur, j, k) && !cur.used && cur.words >= n
    ensures FirstFitAt(cs, n, j)
  {
  }
}
