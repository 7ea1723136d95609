/** The physical page pool: a doubly linked list of free pages, in address order, whose links
    live in the free pages themselves. */
module PagePool {
  import opened Memory
  import opened FreeList

  /** How `alloc_pages` ends. `NullRegion`, `Hang` and `Trap` are the ends of its gap branch: the branch
      makes the next free page the start of the region while `page` stays behind. With no next page the
      start is the null address, from which the loop either takes the region for long enough and reads
      the links at the null address, or comes back to the same state for ever; otherwise the loop test
      subtracts past zero. */
  datatype AllocOutcome = Allocated(addr: nat) | NoGap | NullRegion | Hang | Trap

  /** What the callers of the pool see. `Panic` covers failed assertions and checked arithmetic;
      `Derailed` is `NullRegion` or `Hang`: no regular end. */
  datatype VmResult = Ok(addr: nat) | OutOfPages | Panic | Derailed

  /** Which end a request for `n` pages comes to on a list that is not empty. */
  ghost predicate OutcomeFor(list: seq<nat>, n: nat, r: AllocOutcome) {
    && (r.Allocated? <==> Serves(list, n))
    && (r.NoGap? <==> Refuses(list, n))
    && (r.NullRegion? <==> n >= 2 && |list| == 1 && list[0] >= n - 1)
    && (r.Hang? <==> n >= 2 && |list| == 1 && list[0] < n - 1)
  }

  /** Memory `m` with the `n` pages from `p` on zeroed. */
  ghost predicate ZeroedRegion(m: Mem, m': Mem, p: nat, n: nat) {
    |m'| == |m| && forall q :: 0 <= q < |m| ==> m'[q] == if p <= q < p + n then ZeroPage() else m[q]
  }

  /** The pages linked so far by `free_pages`: `i` of the `n` pages from `p` on. */
  function PartialPage(p: nat, i: nat, j: nat): Page
    requires j < i
  {
    FreePage(
      if j == 0 then 0 else 4096 * (p + j - 1),
      if j + 1 < i || i == 1 then 4096 * (p + j + 1) else 0)
  }

  ghost predicate PartlyLinked(m: Mem, m': Mem, p: nat, i: nat) {
    && |m'| == |m| && p + i <= |m|
    && (forall j :: 0 <= j < i ==> m'[p + j] == PartialPage(p, i, j))
    && (forall q :: 0 <= q < |m| && !(p <= q < p + i) ==> m'[q] == m[q])
  }

  /** The first `i` of `n` pages from `p` on are linked, and nothing else has changed. */
  ghost predicate Built(m: Mem, m': Mem, p: nat, n: nat, i: nat) {
    && |m'| == |m| && i <= n && p + n <= |m|
    && (forall j :: 0 <= j < i ==> m'[p + j] == PartialPage(p, n, j))
    && (forall q :: 0 <= q < |m| && !(p <= q < p + i) ==> m'[q] == m[q])
  }

  lemma PageCount(start: nat, page: nat, k: nat)
    requires page == start + 4096 * k
    ensures (page - start) / 0x1000 == k
  {
  }

  /** A run of pages linked to each other, with the first page's previous link and the last
      page's next link null, is a free list; so is no run of one page, whose next link is set. */
  lemma RunIsLinked(m: Mem, p: nat, n: nat)
    requires p + n <= |m| && n >= 2
    requires forall j :: 0 <= j < n ==> m[p + j] == PartialPage(p, n, j)
    ensures Linked(m, Region(p, n))
  {
    var s := Region(p, n);
    forall k | 0 <= k < n ensures LinkedAt(m, s, k) {
      assert m[p + k] == PartialPage(p, n, k);
    }
  }

  class Pool {
    const ram: Ram
    var free: Option<nat>
    const bottom: nat
    const top: nat
    ghost var list: seq<nat>

    ghost predicate Geometry()
      reads this, ram
    {
      && bottom % 4096 == 0 && top % 4096 == 0
      && 4096 <= bottom < top && PageNo(top) <= |ram.pages|
    }

    ghost predicate Valid()
      reads this, ram
    {
      && Geometry()
      && Sorted(list) && Linked(ram.pages, list)
      && InRange(list, PageNo(bottom), PageNo(top))
      && free == if list == [] then None else Some(4096 * list[0])
    }

    /** `Pool::new`. The head's next link is written before it is known whether there is a
        second page, so the list is well formed exactly from two pages on. */
    constructor (ram: Ram, bottom: nat, top: nat)
      requires bottom % 4096 == 0 && top % 4096 == 0
      requires 4096 <= bottom < top && PageNo(top) <= |ram.pages|
      modifies ram
      ensures this.ram == ram && this.bottom == bottom && this.top == top
      ensures Geometry() && list == Region(PageNo(bottom), PageNo(top) - PageNo(bottom))
      ensures SameOutside(old(ram.pages), ram.pages, Elems(list))
      ensures Valid() <==> top - bottom >= 8192
    {
      this.ram, this.bottom, this.top := ram, bottom, top;
      free := Some(bottom);
      ghost var b, n := PageNo(bottom), PageNo(top) - PageNo(bottom);
      list := Region(b, n);
      new;
      LinkAll();
      RegionElems(b, n);
      if n >= 2 {
        RunIsLinked(ram.pages, b, n);
      } else {
        assert ram.pages[b + 0] == PartialPage(b, n, 0);
        Relink(0, 4096 * (b + 1), 0);
        Relink(0, 0, 0);
        assert !LinkedAt(ram.pages, list, 0);
      }
    }

    /** The loop of `Pool::new`: every page from `bottom` up to `top` linked to its neighbours. */
    method LinkAll()
      requires Geometry()
      modifies ram
      ensures var b, n := PageNo(bottom), PageNo(top) - PageNo(bottom);
        && Built(old(ram.pages), ram.pages, b, n, n)
    {
      ghost var b, n, i := PageNo(bottom), PageNo(top) - PageNo(bottom), 1;
      assert bottom == 4096 * b && top == 4096 * (b + n);
      NewPage(bottom, 0, bottom + 0x1000);
      var pa := bottom + 0x1000;
      var last := top - 0x1000;
      while pa < top
        invariant 1 <= i <= n && pa == 4096 * (b + i)
        invariant Built(old(ram.pages), ram.pages, b, n, i)
      {
        var prevPa := pa - 0x1000;
        var nextPa := if pa == last then 0 else pa + 0x1000;
        assert PageNo(pa) == b + i && FreePage(prevPa, nextPa) == PartialPage(b, n, i);
        NewPage(pa, prevPa, nextPa);
        pa := pa + 0x1000;
        i := i + 1;
      }
    }

    // ---- Page ----

    /** `Page::new` and `write_free`: a zeroed page with its two links. */
    method NewPage(page: nat, prev: nat, next: nat)
      requires page % 4096 == 0 && PageNo(page) < |ram.pages|
      modifies ram
      ensures ram.pages == old(ram.pages)[PageNo(page) := FreePage(prev, next)]
    {
      ram.ZeroPageAt(page);
      WritePrev(page, prev);
      WriteNext(page, next);
      Relink(prev, next, 0);
    }

    method WritePrev(page: nat, prev: nat)
      requires page % 4096 == 0 && PageNo(page) < |ram.pages|
      modifies ram
      ensures ram.pages == Put(old(ram.pages), PageNo(page), 0, prev)
    {
      Locate(PageNo(page), 0);
      ram.Store(page, prev);
    }

    method WriteNext(page: nat, next: nat)
      requires page % 4096 == 0 && PageNo(page) < |ram.pages|
      modifies ram
      ensures ram.pages == Put(old(ram.pages), PageNo(page), 1, next)
    {
      Locate(PageNo(page), 1);
      ram.Store(page + 8, next);
    }

    method ReadFree(page: nat) returns (prev: nat, next: nat)
      requires page % 4096 == 0 && PageNo(page) < |ram.pages|
      ensures prev == ram.pages[PageNo(page)][0] && next == ram.pages[PageNo(page)][1]
    {
      Locate(PageNo(page), 0);
      Locate(PageNo(page), 1);
      prev, next := ram.Load(page), ram.Load(page + 8);
    }

    /** Reading the links of entry `i` of the free list. */
    method ReadEntry(page: nat, ghost i: nat) returns (prev: nat, next: nat)
      requires Valid() && i < |list| && page == 4096 * list[i]
      ensures prev == PrevLink(list, i) && next == NextLink(list, i)
    {
      assert LinkedAt(ram.pages, list, i);
      prev, next := ReadFree(page);
    }

    // ---- alloc_pages ----

    /** Zeroes the pages from `start` through `page`. */
    method ZeroThrough(start: nat, page: nat)
      requires start % 4096 == 0 && page % 4096 == 0 && start <= page && PageNo(page) < |ram.pages|
      modifies ram
      ensures ZeroedRegion(old(ram.pages), ram.pages, PageNo(start), PageNo(page) + 1 - PageNo(start))
    {
      var cur := start;
      while cur <= page
        invariant cur % 4096 == 0 && start <= cur <= page + 4096
        invariant ZeroedRegion(old(ram.pages), ram.pages, PageNo(start), PageNo(cur) - PageNo(start))
      {
        ram.ZeroPageAt(cur);
        cur := cur + 0x1000;
      }
    }

    /** Unlinks the first `n` pages of the list, whose successor is `next`. */
    method Unlink(next: nat, ghost n: nat)
      requires Valid() && 1 <= n <= |list| && next == NextLink(list, n - 1)
      modifies this, ram
      ensures Valid() && list == old(list)[n..]
      ensures SameOutside(old(ram.pages), ram.pages, Elems(list))
    {
      if next == 0 {
        free := None;
      } else {
        assert LinkedAt(ram.pages, list, n);
        Relink(PrevLink(list, n), NextLink(list, n), 0);
        WritePrev(next, 0);
        free := Some(next);
      }
      DropLinked(old(ram.pages), list, n, ram.pages);
      list := list[n..];
    }

    /** The region from `start` through `page` is the first `k + 1` pages of the list, with `next` behind it. */
    ghost predicate Measuring(start: nat, page: nat, next: nat, k: nat)
      reads this
    {
      && k < |list| && Contiguous(list, k + 1) && start == 4096 * list[0] && page == start + 4096 * k
      && next == NextLink(list, k) && (k >= 1 ==> next != 0)
    }

    /** The inner search loop of `alloc_pages`: the region grows until it is long enough or there is a gap,
        or until the list ends. */
    method GrowRegion(start: nat, page0: nat, next0: nat, num: nat, ghost k0: nat)
      returns (ended: bool, page: nat, next: nat, ghost k: nat)
      requires Valid() && Measuring(start, page0, next0, k0) && k0 < num - 1
      ensures k0 <= k < num
      ensures ended ==> k + 1 == |list| && k >= 1 && Contiguous(list, k + 1)
      ensures !ended ==> Measuring(start, page, next, k) && (next != page + 0x1000 || k == num - 1)
    {
      ended, page, next, k := false, page0, next0, k0;
      PageCount(start, page, k);
      while next == page + 0x1000 && (page - start) / 0x1000 < num - 1
        invariant k0 <= k < num && Measuring(start, page, next, k) && (page - start) / 0x1000 == k
        decreases num - k
      {
        page := next;
        k := k + 1;
        PageCount(start, page, k);
        var prev;
        prev, next := ReadEntry(page, k);
        if next == 0 {
          ended := true;
          return;
        }
      }
    }

    /** The search loops of `alloc_pages`: on `Allocated`, the region is the pages from
        `page0` through `page`, and `next` is what follows `page` in the list. */
    method FindRegion(page0: nat, num: nat) returns (r: AllocOutcome, page: nat, next: nat)
      requires Valid() && free == Some(page0) && num >= 1
      ensures OutcomeFor(list, num, r)
      ensures r.Allocated? ==>
        && r.addr == page0 && Contiguous(list, num)
        && page == 4096 * list[num - 1] && next == NextLink(list, num - 1)
    {
      page := page0;
      ghost var k := 0;
      var prev;
      prev, next := ReadEntry(page, 0);
      assert prev == 0;
      var start := page;
      PageCount(start, page, k);
      while (page - start) / 0x1000 < num - 1
        invariant start == page0 && k < num && Measuring(start, page, next, k) && (page - start) / 0x1000 == k
        invariant k == num - 1 && num >= 2 ==> Contiguous(list, num + 1)
        decreases num - k
      {
        var ended;
        ended, page, next, k := GrowRegion(start, page, next, num, k);
        if ended {
          return NoGap, page, next;
        }
        if next != page + 0x1000 {
          start := next;
          assert !Contiguous(list, k + 2);
          if start != 0 {
            return Trap, page, next;
          }
          PageCount(start, page, list[0]);
          return if (page - start) / 0x1000 < num - 1 then Hang else NullRegion, page, next;
        }
        PageCount(start, page, k);
      }
      return Allocated(start), page, next;
    }

    method AllocPages(page0: nat, num: nat) returns (r: AllocOutcome)
      requires Valid() && free == Some(page0) && num >= 1
      modifies this, ram
      ensures Valid()
      ensures OutcomeFor(old(list), num, r)
      ensures r.Allocated? ==>
        r.addr == page0 && TakeStep(old(ram.pages), old(list), num, ram.pages, list)
      ensures !r.Allocated? ==> list == old(list) && ram.pages == old(ram.pages)
    {
      var page, next;
      r, page, next := FindRegion(page0, num);
      if r.Allocated? {
        Unlink(next, num);
        ghost var m := ram.pages;
        ZeroThrough(r.addr, page);
        TakenStaysLinked(old(list), num, m, ram.pages);
        TakenFrame(old(list), num, old(ram.pages), m, ram.pages);
      }
    }

    // ---- free_pages ----

    /** The link writes with which each branch of `free_pages` ends; 0 for a missing neighbour. */
    method Join(left: nat, page: nat, regionEnd: nat, right: nat, ghost n: nat)
      requires page % 4096 == 0 && left % 4096 == 0 && right % 4096 == 0
      requires n >= 1 && regionEnd == page + 4096 * (n - 1) && PageNo(page) + n <= |ram.pages|
      requires PageNo(left) < |ram.pages| && PageNo(right) < |ram.pages|
      modifies ram
      ensures ram.pages == Joined(old(ram.pages), left, PageNo(page), n, right)
    {
      assert PageNo(regionEnd) == PageNo(page) + n - 1;
      if left != 0 { WriteNext(left, page); }
      WritePrev(page, left);
      WriteNext(regionEnd, right);
      if right != 0 { WritePrev(right, regionEnd); }
    }

    /** The last entry before the region: its index is one less than where the region goes. */
    method FindBefore(head0: nat, regionEnd: nat, ghost p: nat, ghost n: nat)
      returns (head: nat, headNext: nat, ghost at: nat)
      requires Valid() && free == Some(head0) && n >= 1 && regionEnd == 4096 * (p + n - 1)
      requires Apart(list, p, n) && head0 <= regionEnd
      ensures 1 <= at <= |list| && FitsAt(list, at, p, n)
      ensures head == 4096 * list[at - 1] && headNext == NextLink(list, at - 1)
    {
      head, at := head0, 1;
      var prev;
      prev, headNext := ReadEntry(head, 0);
      while headNext != 0 && headNext < regionEnd
        invariant 1 <= at <= |list| && list[at - 1] < p
        invariant head == 4096 * list[at - 1] && headNext == NextLink(list, at - 1)
        decreases |list| - at
      {
        head, at := headNext, at + 1;
        prev, headNext := ReadEntry(head, at - 1);
      }
    }

    /** The first loop of `free_pages`: zeroes the `num` pages from `page` on and links them to
        each other. */
    method LinkRegion(page: nat, num: nat)
      requires page % 4096 == 0 && num >= 1 && PageNo(page) + num <= |ram.pages|
      modifies ram
      ensures PartlyLinked(old(ram.pages), ram.pages, PageNo(page), num)
    {
      var regionEnd := page + (num - 1) * 0x1000;
      var stop := regionEnd + 0x1000;
      var prevPage: Option<nat> := None;
      var currPage := page;
      ghost var p, i := PageNo(page), 0;
      while currPage < stop
        invariant 0 <= i <= num && currPage == 4096 * (p + i)
        invariant prevPage == if i == 0 then None else Some(4096 * (p + i - 1))
        invariant PartlyLinked(old(ram.pages), ram.pages, p, i)
      {
        ghost var m := ram.pages;
        ram.ZeroPageAt(currPage);
        var nextPage := currPage + 0x1000;
        match prevPage {
          case None =>
            WriteNext(currPage, nextPage);
          case Some(prev) =>
            WritePrev(currPage, prev);
            WriteNext(prev, currPage);
        }
        LinkOneMore(old(ram.pages), m, ram.pages, p, i);
        prevPage, currPage := Some(currPage), nextPage;
        i := i + 1;
      }
    }

    method FreePages(page: nat, num: nat)
      requires Valid() && page % 4096 == 0 && num >= 1
      requires bottom <= page && PageNo(page) + num <= PageNo(top)
      requires Apart(list, PageNo(page), num)
      modifies this, ram
      ensures Valid()
      ensures GiveStep(old(ram.pages), old(list), PageNo(page), num, ram.pages, list)
    {
      LinkRegion(page, num);
      ghost var m1 := ram.pages;
      RegionApart(old(ram.pages), m1, list, PageNo(page), num);
      ghost var at := InsertRegion(page, num, old(ram.pages));
      SpliceElems(old(list), at, PageNo(page), num);
      SpliceFrame(old(ram.pages), m1, ram.pages, old(list), at, PageNo(page), num);
    }

    /** The rest of `free_pages`: joins the linked region to the list where it belongs. */
    method InsertRegion(page: nat, num: nat, ghost m: Mem) returns (ghost at: nat)
      requires Valid() && page % 4096 == 0 && num >= 1
      requires bottom <= page && PageNo(page) + num <= PageNo(top)
      requires Apart(list, PageNo(page), num)
      requires PartlyLinked(m, ram.pages, PageNo(page), num) && Linked(m, list)
      modifies this, ram
      ensures Valid()
      ensures FitsAt(old(list), at, PageNo(page), num)
      ensures list == Splice(old(list), at, PageNo(page), num)
      ensures SameOutside(old(ram.pages), ram.pages, Elems(list))
    {
      ghost var p := PageNo(page);
      var regionEnd := page + (num - 1) * 0x1000;
      match free {
        case Some(first) =>
          if first > regionEnd {
            at := 0;
            JoinAt(0, page, regionEnd, first, m, at, num);
            free := Some(page);
          } else {
            var head, headNext;
            head, headNext, at := FindBefore(first, regionEnd, p, num);
            JoinAt(head, page, regionEnd, headNext, m, at, num);
          }
        case None =>
          at := 0;
          JoinAt(0, page, regionEnd, 0, m, at, num);
          free := Some(page);
      }
    }

    /** `Join` between entries `at-1` and `at` of the list. */
    method JoinAt(left: nat, page: nat, regionEnd: nat, right: nat,
                  ghost m: Mem, ghost at: nat, ghost n: nat)
      requires Valid() && page % 4096 == 0 && n >= 1 && regionEnd == page + 4096 * (n - 1)
      requires bottom <= page && PageNo(page) + n <= PageNo(top)
      requires FitsAt(list, at, PageNo(page), n)
      requires left == if at == 0 then 0 else 4096 * list[at - 1]
      requires right == if at < |list| then 4096 * list[at] else 0
      requires PartlyLinked(m, ram.pages, PageNo(page), n) && Linked(m, list)
      modifies this`list, ram
      ensures list == Splice(old(list), at, PageNo(page), n)
      ensures Geometry() && Sorted(list) && Linked(ram.pages, list)
      ensures InRange(list, PageNo(bottom), PageNo(top))
      ensures SameOutside(old(ram.pages), ram.pages, Elems(list))
    {
      LinkBounds(list, at, left, right, |ram.pages|);
      Join(left, page, regionEnd, right, n);
      SpliceRange(list, at, PageNo(page), n, PageNo(bottom), PageNo(top));
      JoinedList(m, old(ram.pages), list, at, PageNo(page), n, left, right);
      list := Splice(list, at, PageNo(page), n);
    }

    // ---- PagePool ----

    method Palloc() returns (r: VmResult)
      requires Valid()
      modifies this, ram
      ensures Valid()
      ensures old(list) == [] ==> r == OutOfPages && list == [] && ram.pages == old(ram.pages)
      ensures old(list) != [] ==>
        r == Ok(4096 * old(list)[0]) && TakeStep(old(ram.pages), old(list), 1, ram.pages, list)
    {
      match free {
        case None => r := OutOfPages;
        case Some(page) =>
          var a := AllocPages(page, 1);
          r := Ok(a.addr);
      }
    }

    method PallocPlural(num: nat) returns (r: VmResult)
      requires Valid()
      modifies this, ram
      ensures Valid()
      ensures r.Ok? <==> Serves(old(list), num)
      ensures r.Ok? ==>
        r.addr == 4096 * old(list)[0] && TakeStep(old(ram.pages), old(list), num, ram.pages, list)
      ensures !r.Ok? ==> list == old(list) && ram.pages == old(ram.pages)
      ensures r == OutOfPages <==> Refuses(old(list), num)
      ensures r == Derailed <==> num >= 2 && |old(list)| == 1
    {
      if num == 0 {
        return Panic;
      }
      match free {
        case None => r := OutOfPages;
        case Some(page) =>
          var a := AllocPages(page, num);
          r := match a
            case Allocated(addr) => Ok(addr)
            case NoGap => OutOfPages
            case NullRegion => Derailed
            case Hang => Derailed
            case Trap => Panic;
      }
    }

    method PfreePlural(page: nat, num: nat) returns (r: VmResult)
      requires Valid()
      requires page % 4096 == 0 && num != 0 ==>
        bottom <= page && PageNo(page) + num <= PageNo(top) && Apart(list, PageNo(page), num)
      modifies this, ram
      ensures Valid()
      ensures r == Panic <==> page % 4096 != 0 || num == 0
      ensures r == Panic ==> list == old(list) && ram.pages == old(ram.pages)
      ensures r != Panic ==>
        r == Ok(page) && GiveStep(old(ram.pages), old(list), PageNo(page), num, ram.pages, list)
    {
      if page % 4096 != 0 || num == 0 {
        return Panic;
      }
      FreePages(page, num);
      return Ok(page);
    }

    method Pfree(page: nat) returns (r: VmResult)
      requires Valid()
      requires page % 4096 == 0 ==> bottom <= page < top && Apart(list, PageNo(page), 1)
      modifies this, ram
      ensures Valid()
      ensures r == Panic <==> page % 4096 != 0
      ensures r == Panic ==> list == old(list) && ram.pages == old(ram.pages)
      ensures r != Panic ==>
        r == Ok(page) && GiveStep(old(ram.pages), old(list), PageNo(page), 1, ram.pages, list)
    {
      r := PfreePlural(page, 1);
    }
  }

  /** The four link writes that join a linked region of `n` pages to its neighbours. */
  function Joined(m: Mem, left: nat, p: nat, n: nat, right: nat): Mem
    requires n >= 1 && p + n <= |m| && PageNo(left) < |m| && PageNo(right) < |m|
  {
    var m1 := if left == 0 then m else Put(m, PageNo(left), 1, 4096 * p);
    var m2 := Put(m1, p, 0, left);
    var m3 := Put(m2, p + n - 1, 1, right);
    if right == 0 then m3 else Put(m3, PageNo(right), 0, 4096 * (p + n - 1))
  }

  lemma JoinedRegion(m0: Mem, m: Mem, list: seq<nat>, i: nat, p: nat, n: nat, left: nat, right: nat)
    requires PartlyLinked(m0, m, p, n) && n >= 1 && Linked(m0, list) && FitsAt(list, i, p, n)
    requires left == if i == 0 then 0 else 4096 * list[i - 1]
    requires right == if i < |list| then 4096 * list[i] else 0
    ensures RegionLinked(Joined(m, left, p, n, right), list, i, p, n)
  {
    var m' := Joined(m, left, p, n, right);
    forall j | 0 <= j < n ensures m'[p + j] == RegionPage(list, i, p, n, j) {
      assert m[p + j] == PartialPage(p, n, j);
      var a, b := m[p + j][0], m[p + j][1];
      Relink(a, b, left);
      Relink(left, b, right);
      Relink(a, b, right);
    }
  }

  lemma JoinedNeighbours(m0: Mem, m: Mem, list: seq<nat>, i: nat, p: nat, n: nat, left: nat, right: nat)
    requires PartlyLinked(m0, m, p, n) && n >= 1 && Linked(m0, list) && FitsAt(list, i, p, n)
    requires Sorted(list) && InRange(list, 1, |m0|)
    requires left == if i == 0 then 0 else 4096 * list[i - 1]
    requires right == if i < |list| then 4096 * list[i] else 0
    ensures Linkable(m0, list, i, p, n, Joined(m, left, p, n, right))
  {
    var m' := Joined(m, left, p, n, right);
    JoinedRegion(m0, m, list, i, p, n, left, right);
    if i > 0 {
      assert LinkedAt(m0, list, i - 1);
      Relink(PrevLink(list, i - 1), NextLink(list, i - 1), 4096 * p);
      assert m'[list[i - 1]] == m0[list[i - 1]][1 := 4096 * p];
    }
    if i < |list| {
      assert LinkedAt(m0, list, i);
      Relink(PrevLink(list, i), NextLink(list, i), 4096 * (p + n - 1));
      assert m'[list[i]] == m0[list[i]][0 := 4096 * (p + n - 1)];
    }
    forall k | 0 <= k < |list| && k != i - 1 && k != i ensures m'[list[k]] == m0[list[k]] {
      assert k < i ==> list[k] < list[i - 1];
      assert k > i ==> list[k] > list[i];
    }
  }

  lemma LinkBounds(list: seq<nat>, i: nat, left: nat, right: nat, size: nat)
    requires i <= |list| && InRange(list, 1, size) && size >= 1
    requires left == if i == 0 then 0 else 4096 * list[i - 1]
    requires right == if i < |list| then 4096 * list[i] else 0
    ensures left % 4096 == 0 && right % 4096 == 0 && PageNo(left) < size && PageNo(right) < size
  {
  }

  lemma SpliceRange(list: seq<nat>, i: nat, p: nat, n: nat, lo: nat, hi: nat)
    requires i <= |list| && InRange(list, lo, hi) && lo <= p && p + n <= hi
    ensures InRange(Splice(list, i, p, n), lo, hi)
  {
  }

  lemma JoinedFrame(m: Mem, list: seq<nat>, i: nat, p: nat, n: nat, left: nat, right: nat)
    requires p + n <= |m| && n >= 1 && i <= |list| && InRange(list, 1, |m|)
    requires left == if i == 0 then 0 else 4096 * list[i - 1]
    requires right == if i < |list| then 4096 * list[i] else 0
    ensures SameOutside(m, Joined(m, left, p, n, right), Elems(Splice(list, i, p, n)))
  {
    SpliceElems(list, i, p, n);
    RegionElems(p, n);
    var s, m' := Elems(Splice(list, i, p, n)), Joined(m, left, p, n, right);
    forall q | 0 <= q < |m| && q !in s ensures m'[q] == m[q] {
      assert q !in Elems(list) && !(p <= q < p + n);
      assert i > 0 ==> q != list[i - 1];
      assert i < |list| ==> q != list[i];
    }
  }

  /** Joining a linked region in between entries `i-1` and `i` gives the spliced list. */
  lemma JoinedList(m0: Mem, m: Mem, list: seq<nat>, i: nat, p: nat, n: nat, left: nat, right: nat)
    requires PartlyLinked(m0, m, p, n) && n >= 1 && Linked(m0, list) && FitsAt(list, i, p, n)
    requires Sorted(list) && InRange(list, 1, |m0|)
    requires left == if i == 0 then 0 else 4096 * list[i - 1]
    requires right == if i < |list| then 4096 * list[i] else 0
    ensures var m', s := Joined(m, left, p, n, right), Splice(list, i, p, n);
      && Linked(m', s) && Sorted(s) && SameOutside(m, m', Elems(s))
  {
    JoinedNeighbours(m0, m, list, i, p, n, left, right);
    JoinedFrame(m, list, i, p, n, left, right);
    SpliceLinked(m0, list, i, p, n, Joined(m, left, p, n, right));
    SpliceSorted(list, i, p, n);
  }

  /** A region apart from the list can be rewritten without touching the list. */
  lemma RegionApart(m: Mem, m': Mem, list: seq<nat>, p: nat, n: nat)
    requires Linked(m, list) && Apart(list, p, n) && PartlyLinked(m, m', p, n)
    ensures Linked(m', list)
  {
    forall i | 0 <= i < |list| ensures LinkedAt(m', list, i) {
      assert LinkedAt(m, list, i);
    }
  }

  lemma SpliceFrame(m: Mem, m1: Mem, m': Mem, list: seq<nat>, i: nat, p: nat, n: nat)
    requires i <= |list| && PartlyLinked(m, m1, p, n)
    requires SameOutside(m1, m', Elems(Splice(list, i, p, n)))
    ensures SameOutside(m, m', Elems(Splice(list, i, p, n)))
  {
    SpliceElems(list, i, p, n);
    RegionElems(p, n);
  }

  /** One round of the linking loop. */
  lemma LinkOneMore(m0: Mem, m: Mem, m': Mem, p: nat, i: nat)
    requires PartlyLinked(m0, m, p, i) && p + i < |m|
    requires i == 0 ==> m' == m[p := ZeroPage()[1 := 4096 * (p + 1)]]
    requires i > 0 ==>
      m' == Put(m[p + i := ZeroPage()[0 := 4096 * (p + i - 1)]], p + i - 1, 1, 4096 * (p + i))
    ensures PartlyLinked(m0, m', p, i + 1)
  {
    if i == 0 {
      Relink(0, 0, 4096 * (p + 1));
      assert ZeroPage() == FreePage(0, 0);
    } else {
      Relink(0, 0, 4096 * (p + i - 1));
      assert ZeroPage() == FreePage(0, 0);
      assert m[p + (i - 1)] == PartialPage(p, i, i - 1);
      var a := if i - 1 == 0 then 0 else 4096 * (p + i - 2);
      Relink(a, m[p + i - 1][1], 4096 * (p + i));
      Relink(a, 4096 * (p + i), 0);
      var n := i + 1;
      forall j | 0 <= j < n ensures m'[p + j] == PartialPage(p, n, j) {
        if j < i {
          assert m[p + j] == PartialPage(p, i, j);
        }
      }
    }
  }

  /** Zeroing the pages taken off the front leaves the rest of the list as it was. */
  lemma TakenStaysLinked(list: seq<nat>, n: nat, m: Mem, m': Mem)
    requires Sorted(list) && 1 <= n && Contiguous(list, n) && Linked(m, list[n..])
    requires ZeroedRegion(m, m', list[0], n)
    ensures Linked(m', list[n..])
  {
    var s := list[n..];
    forall i | 0 <= i < |s| ensures LinkedAt(m', s, i) {
      assert LinkedAt(m, s, i);
      assert s[i] == list[n + i] && list[n - 1] < list[n + i];
    }
  }

  lemma ContiguousElems(list: seq<nat>, n: nat)
    requires 1 <= n && Contiguous(list, n)
    ensures forall q :: list[0] <= q < list[0] + n ==> q in list
  {
    forall q | list[0] <= q < list[0] + n ensures q in list {
      assert list[q - list[0]] == q;
    }
  }

  lemma TakenFrame(list: seq<nat>, n: nat, m0: Mem, m: Mem, m': Mem)
    requires 1 <= n && Contiguous(list, n)
    requires SameOutside(m0, m, Elems(list[n..])) && ZeroedRegion(m, m', list[0], n)
    ensures SameOutside(m0, m', Elems(list))
  {
    ContiguousElems(list, n);
  }
}
