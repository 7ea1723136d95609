/** The free list of the page pool as a value: the sorted sequence of free page numbers, and the
    memory image that represents it. */
module FreeList {
  import opened Memory

  /** A free page: previous link, next link, and 510 zero words. */
  function FreePage(prev: nat, next: nat): Page {
    [prev, next] + seq(510, _ => 0)
  }

  function PrevLink(list: seq<nat>, i: nat): nat
    requires i < |list|
  {
    if i == 0 then 0 else 4096 * list[i - 1]
  }

  function NextLink(list: seq<nat>, i: nat): nat
    requires i < |list|
  {
    if i + 1 < |list| then 4096 * list[i + 1] else 0
  }

  ghost predicate Sorted(list: seq<nat>) {
    forall i, j :: 0 <= i < j < |list| ==> list[i] < list[j]
  }

  ghost predicate LinkedAt(m: Mem, list: seq<nat>, i: nat)
    requires i < |list|
  {
    list[i] < |m| && m[list[i]] == FreePage(PrevLink(list, i), NextLink(list, i))
  }

  /** The pages of `list` hold exactly the doubly linked list of `list`, and are otherwise zero. */
  ghost predicate Linked(m: Mem, list: seq<nat>) {
    && (forall i :: 0 <= i < |list| ==> list[i] < |m|)
    && (forall i {:trigger LinkedAt(m, list, i)} :: 0 <= i < |list| ==> LinkedAt(m, list, i))
  }

  ghost predicate InRange(list: seq<nat>, lo: nat, hi: nat) {
    forall i :: 0 <= i < |list| ==> lo <= list[i] < hi
  }

  /** The pages `p`, `p+1`, ..., `p+n-1`. */
  function Region(p: nat, n: nat): (r: seq<nat>)
    ensures |r| == n && forall i :: 0 <= i < n ==> r[i] == p + i
  {
    seq(n, i requires 0 <= i => p + i)
  }

  /** The free list starts with `k` consecutive pages. */
  ghost predicate Contiguous(list: seq<nat>, k: nat) {
    k <= |list| && forall i :: 0 <= i < k ==> list[i] == list[0] + i
  }

  /** Memories that differ at most on the pages of `s`. */
  ghost predicate SameOutside(m: Mem, m': Mem, s: set<nat>) {
    |m| == |m'| && forall q :: 0 <= q < |m| && q !in s ==> m'[q] == m[q]
  }

  function Elems(list: seq<nat>): set<nat> {
    set p | p in list
  }

  lemma RegionElems(p: nat, n: nat)
    ensures forall q :: q in Elems(Region(p, n)) <==> p <= q < p + n
  {
    forall q | p <= q < p + n ensures q in Region(p, n) {
      assert Region(p, n)[q - p] == q;
    }
  }

  /** What the words of a free page hold: the address of the page before it in the list, the address of the page
      after it, 0 where there is none, and 510 zeros. */
  lemma FreeWords(m: Mem, list: seq<nat>, i: nat, k: nat)
    requires Linked(m, list) && i < |list| && k < 512
    ensures list[i] < |m| && m[list[i]][k] ==
      if k == 0 && i > 0 then 4096 * list[i - 1] else if k == 1 && i + 1 < |list| then 4096 * list[i + 1] else 0
  {
    assert LinkedAt(m, list, i);
  }

  // ---- The free image is a function of the free set ----

  /** A set of pages has one sorted list. */
  lemma {:induction false} SortedUnique(a: seq<nat>, b: seq<nat>)
    requires Sorted(a) && Sorted(b) && Elems(a) == Elems(b)
    ensures a == b
  {
    if a == [] {
      assert forall i :: 0 <= i < |b| ==> b[i] in Elems(b);
    } else {
      assert a[0] in Elems(b);
      assert b[0] in Elems(a);
      assert a[0] == b[0];
      forall x ensures x in Elems(a[1..]) <==> x in Elems(b[1..]) {
        assert x in Elems(a[1..]) <==> x in Elems(a) && x != a[0] by { TailElems(a, x); }
        assert x in Elems(b[1..]) <==> x in Elems(b) && x != b[0] by { TailElems(b, x); }
      }
      assert Elems(a[1..]) == Elems(b[1..]);
      SortedUnique(a[1..], b[1..]);
    }
  }

  lemma TailElems(a: seq<nat>, x: nat)
    requires Sorted(a) && a != []
    ensures x in a[1..] <==> x in a && x != a[0]
  {
    assert a == [a[0]] + a[1..];
  }

  /** Canonical form: two memories that hold free lists over the same set of pages, and agree
      elsewhere, are the same memory. */
  lemma CanonicalImage(m: Mem, a: seq<nat>, m': Mem, b: seq<nat>)
    requires Sorted(a) && Sorted(b) && Elems(a) == Elems(b)
    requires Linked(m, a) && Linked(m', b)
    requires SameOutside(m, m', Elems(a))
    ensures a == b && m == m'
  {
    SortedUnique(a, b);
    forall q | 0 <= q < |m| ensures m[q] == m'[q] {
      if q in a {
        var i :| 0 <= i < |a| && a[i] == q;
        assert LinkedAt(m, a, i) && LinkedAt(m', a, i);
      }
    }
  }

  /** Writing outside the free pages leaves the free list as it is. */
  lemma LinkedFrame(m: Mem, m': Mem, list: seq<nat>, s: set<nat>)
    requires Linked(m, list) && SameOutside(m, m', s) && Elems(list) !! s
    ensures Linked(m', list)
  {
    forall i | 0 <= i < |list| ensures LinkedAt(m', list, i) {
      assert LinkedAt(m, list, i);
      assert list[i] in Elems(list);
    }
  }

  // ---- Taking pages off the front, and splicing a region in ----

  /** Rewriting one link of a free page. */
  lemma Relink(prev: nat, next: nat, x: nat)
    ensures FreePage(prev, next)[0 := x] == FreePage(x, next)
    ensures FreePage(prev, next)[1 := x] == FreePage(prev, x)
    ensures ZeroPage()[0 := prev][1 := next] == FreePage(prev, next)
    ensures FreePage(prev, next)[0] == prev && FreePage(prev, next)[1] == next
  {
  }

  /** Dropping the first `n` pages only needs the new head's previous link cleared. */
  lemma DropLinked(m: Mem, list: seq<nat>, n: nat, m': Mem)
    requires Linked(m, list) && 1 <= n <= |list| && |m'| == |m|
    requires n < |list| ==> m'[list[n]] == FreePage(0, NextLink(list, n))
    requires forall i :: n < i < |list| ==> m'[list[i]] == m[list[i]]
    ensures Linked(m', list[n..])
  {
    var s := list[n..];
    forall k | 0 <= k < |s| ensures LinkedAt(m', s, k) {
      assert LinkedAt(m, list, n + k);
      assert s[k] == list[n + k];
      assert NextLink(s, k) == NextLink(list, n + k);
      assert k > 0 ==> PrevLink(s, k) == PrevLink(list, n + k);
    }
  }

  function Splice(list: seq<nat>, i: nat, p: nat, n: nat): (s: seq<nat>)
    requires i <= |list|
    ensures |s| == |list| + n
    ensures forall k :: 0 <= k < |s| ==>
      s[k] == if k < i then list[k] else if k < i + n then p + (k - i) else list[k - n]
  {
    list[..i] + Region(p, n) + list[i..]
  }

  /** The `n` pages from `p` on lie between entries `i-1` and `i` of the list. */
  ghost predicate FitsAt(list: seq<nat>, i: nat, p: nat, n: nat) {
    && i <= |list|
    && (i > 0 ==> list[i - 1] < p)
    && (i < |list| ==> p + n <= list[i])
  }

  lemma SpliceSorted(list: seq<nat>, i: nat, p: nat, n: nat)
    requires Sorted(list) && FitsAt(list, i, p, n)
    ensures Sorted(Splice(list, i, p, n))
  {
    var s := Splice(list, i, p, n);
    forall a, b | 0 <= a < b < |s| ensures s[a] < s[b] {
      assert a < i ==> s[a] <= list[i - 1];
      assert b >= i + n ==> s[b] >= list[i];
    }
  }

  lemma SpliceElems(list: seq<nat>, i: nat, p: nat, n: nat)
    requires i <= |list|
    ensures Elems(Splice(list, i, p, n)) == Elems(list) + Elems(Region(p, n))
  {
    assert list == list[..i] + list[i..];
  }

  /** What the pages of a spliced region must hold. */
  function RegionPage(list: seq<nat>, i: nat, p: nat, n: nat, j: nat): Page
    requires i <= |list| && j < n
  {
    FreePage(
      if j > 0 then 4096 * (p + j - 1) else if i == 0 then 0 else 4096 * list[i - 1],
      if j + 1 < n then 4096 * (p + j + 1) else if i < |list| then 4096 * list[i] else 0)
  }

  ghost predicate RegionLinked(m: Mem, list: seq<nat>, i: nat, p: nat, n: nat)
    requires i <= |list| && p + n <= |m|
  {
    forall j :: 0 <= j < n ==> m[p + j] == RegionPage(list, i, p, n, j)
  }

  /** Linking a region in takes its own links and one link of each neighbour. */
  ghost predicate Linkable(m: Mem, list: seq<nat>, i: nat, p: nat, n: nat, m': Mem) {
    && Linked(m, list) && FitsAt(list, i, p, n) && n >= 1
    && |m'| == |m| && p + n <= |m|
    && RegionLinked(m', list, i, p, n)
    && (i > 0 ==> m'[list[i - 1]] == FreePage(PrevLink(list, i - 1), 4096 * p))
    && (i < |list| ==> m'[list[i]] == FreePage(4096 * (p + n - 1), NextLink(list, i)))
    && (forall k :: 0 <= k < |list| && k != i - 1 && k != i ==> m'[list[k]] == m[list[k]])
  }

  lemma RegionLinks(list: seq<nat>, i: nat, p: nat, n: nat, j: nat)
    requires i <= |list| && j < n
    ensures
      var s := Splice(list, i, p, n);
      RegionPage(list, i, p, n, j) == FreePage(PrevLink(s, i + j), NextLink(s, i + j))
  {
  }

  lemma SpliceLinkedAt(m: Mem, list: seq<nat>, i: nat, p: nat, n: nat, m': Mem, k: nat)
    requires Linkable(m, list, i, p, n, m') && k < |list| + n
    ensures LinkedAt(m', Splice(list, i, p, n), k)
  {
    var s := Splice(list, i, p, n);
    if k < i {
      assert LinkedAt(m, list, k);
      assert PrevLink(s, k) == PrevLink(list, k);
      assert k + 1 < i ==> NextLink(s, k) == NextLink(list, k);
    } else if k < i + n {
      assert m'[p + (k - i)] == RegionPage(list, i, p, n, k - i);
      RegionLinks(list, i, p, n, k - i);
    } else {
      assert LinkedAt(m, list, k - n);
      assert NextLink(s, k) == NextLink(list, k - n);
      assert k > i + n ==> PrevLink(s, k) == PrevLink(list, k - n);
    }
  }

  lemma SpliceLinked(m: Mem, list: seq<nat>, i: nat, p: nat, n: nat, m': Mem)
    requires Linkable(m, list, i, p, n, m')
    ensures Linked(m', Splice(list, i, p, n))
  {
    var s := Splice(list, i, p, n);
    forall k | 0 <= k < |s| ensures LinkedAt(m', s, k) {
      SpliceLinkedAt(m, list, i, p, n, m', k);
    }
  }

  // ---- The pool operations as relations on memory and list ----

  /** A request for `n` pages is served exactly when it asks for one of them, or when the list starts
      with one page more than it asks for. */
  ghost predicate Serves(list: seq<nat>, n: nat) {
    list != [] && (n == 1 || (n >= 2 && Contiguous(list, n + 1)))
  }

  /** It is refused exactly when the list is empty, or consecutive as a whole and no longer than the request. */
  ghost predicate Refuses(list: seq<nat>, n: nat) {
    n >= 1 && (list == [] || (2 <= |list| <= n && Contiguous(list, |list|)))
  }

  /** Taking the first `n` pages: consecutive, returned zeroed, nothing outside the free pages touched. */
  ghost predicate TakeStep(m: Mem, list: seq<nat>, n: nat, m': Mem, list': seq<nat>) {
    && 1 <= n && Contiguous(list, n) && list' == list[n..]
    && Sorted(list') && Linked(m', list') && SameOutside(m, m', Elems(list))
    && forall q :: list[0] <= q < list[0] + n ==> 0 <= q < |m'| && m'[q] == ZeroPage()
  }

  /** Giving the `n` pages from `p` on back. */
  ghost predicate GiveStep(m: Mem, list: seq<nat>, p: nat, n: nat, m': Mem, list': seq<nat>) {
    && Elems(list') == Elems(list) + Elems(Region(p, n)) && Apart(list, p, n)
    && Sorted(list') && Linked(m', list') && SameOutside(m, m', Elems(list'))
  }

  ghost predicate Apart(list: seq<nat>, p: nat, n: nat) {
    forall i :: 0 <= i < |list| ==> !(p <= list[i] < p + n)
  }
}
