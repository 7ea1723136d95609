/** The critical sections of the page pool as code: `alloc_pages` and `free_pages` one access to
    shared memory at a time. The code satisfies what `Spinlock` asks of critical sections, comes to the
    same ends as `PagePool`, and always comes to one. */
module PoolCode {
  import opened Memory
  import opened FreeList
  import opened PagePool
  import opened PoolLaws
  import opened Spinlock

  /** One store: a word of a page, or the head of the list. */
  datatype Store = WordAt(p: nat, slot: nat, val: nat) | SetFree(free: Option<nat>)

  /** Where a section is. `Outer` and `Inner` are at the tests of the two loops of `alloc_pages`; `Stores`
      carries out its stores in order and goes on at `after`; `Stuck` is a section that has failed an
      assertion or taken the gap branch of `alloc_pages`, and never comes to a regular end. */
  datatype Local =
    | Begin(op: Op)
    | ReadPrev(n: nat, page: nat)
    | ReadNext(n: nat, page: nat)
    | Outer(n: nat, start: nat, page: nat, next: nat)
    | Inner(n: nat, start: nat, page: nat, next: nat)
    | Advance(n: nat, start: nat, page: nat)
    | ReadStart(n: nat, start: nat, page: nat, next: nat)
    | Linking(p: nat, n: nat, i: nat)
    | Choose(p: nat, n: nat)
    | Search(p: nat, n: nat, head: nat)
    | Stores(todo: seq<Store>, after: Local)
    | Done(answer: Answer)
    | Stuck

  function Target(st: Store): set<nat> {
    if st.SetFree? then {} else {st.p}
  }

  function Apply(sh: Shared, st: Store): Shared {
    match st
    case WordAt(p, k, v) => if p < |sh.mem| && k < 512 then sh.(mem := Put(sh.mem, p, k, v)) else sh
    case SetFree(f) => sh.(free := f)
  }

  function ApplyAll(sh: Shared, todo: seq<Store>): Shared
    decreases |todo|
  {
    if todo == [] then sh else ApplyAll(Apply(sh, todo[0]), todo[1..])
  }

  /** Word `k` of the page at address `page`. */
  function WordOf(m: Mem, page: nat, k: nat): nat
    requires k < 512
  {
    if PageNo(page) < |m| then m[PageNo(page)][k] else 0
  }

  /** Zeroing the words of page `p`, one by one. */
  function ZeroWords(p: nat): (todo: seq<Store>)
    ensures |todo| == 512 && forall k :: 0 <= k < 512 ==> todo[k] == WordAt(p, k, 0)
  {
    seq(512, k requires 0 <= k => WordAt(p, k, 0))
  }

  function Zeros(p: nat, n: nat): (todo: seq<Store>)
    ensures |todo| == 512 * n
    decreases n
  {
    if n == 0 then [] else ZeroWords(p) + Zeros(p + 1, n - 1)
  }

  /** The pages from `start` through `page`, when `page` is not before `start`. */
  function Length(start: nat, page: nat): nat {
    if page < start then 0 else (page - start) / 4096
  }

  /** The end of `alloc_pages` on the region from `start` through `page`, whose first page has the previous
      link `before`: the region is taken out of the list, and zeroed. */
  function TakeStores(before: nat, start: nat, page: nat, next: nat): (todo: seq<Store>)
    ensures |todo| <= 2 + 512 * (Length(start, page) + 1)
  {
    (if before != 0 then [WordAt(PageNo(before), 1, next), WordAt(PageNo(next), 0, before)]
     else if next == 0 then [SetFree(None)]
     else [WordAt(PageNo(next), 0, 0), SetFree(Some(next))])
    + Zeros(PageNo(start), Length(start, page) + 1)
  }

  /** A round of the linking loop of `free_pages`. */
  function LinkStores(p: nat, i: nat): (todo: seq<Store>)
    ensures |todo| <= 514
  {
    ZeroWords(p + i) +
    if i == 0 then [WordAt(p, 1, 4096 * (p + 1))]
    else [WordAt(p + i, 0, 4096 * (p + i - 1)), WordAt(p + i - 1, 1, 4096 * (p + i))]
  }

  /** The four ways `free_pages` joins its region to the list. */
  function OnlyStores(p: nat, n: nat): seq<Store>
    requires n >= 1
  {
    [WordAt(p, 0, 0), WordAt(p + n - 1, 1, 0), SetFree(Some(4096 * p))]
  }

  function FirstStores(p: nat, n: nat, head: nat): seq<Store>
    requires n >= 1
  {
    [WordAt(PageNo(head), 0, 4096 * (p + n - 1)), WordAt(p + n - 1, 1, head), WordAt(p, 0, 0), SetFree(Some(4096 * p))]
  }

  function LastStores(p: nat, n: nat, head: nat): seq<Store>
    requires n >= 1
  {
    [WordAt(p + n - 1, 1, 0), WordAt(p, 0, head), WordAt(PageNo(head), 1, 4096 * p)]
  }

  function MiddleStores(p: nat, n: nat, head: nat, next: nat): seq<Store>
    requires n >= 1
  {
    [WordAt(PageNo(head), 1, 4096 * p), WordAt(p, 0, head), WordAt(p + n - 1, 1, next),
     WordAt(PageNo(next), 0, 4096 * (p + n - 1))]
  }

  function StepLocal(local: Local, sh: Shared): Local {
    match local
    case Begin(TakeOp(n)) =>
      if sh.free.None? then Done(Nothing) else ReadPrev(n, sh.free.value)
    case Begin(GiveOp(p, n)) => Linking(p, n, 0)
    case ReadPrev(n, page) => if WordOf(sh.mem, page, 0) == 0 then ReadNext(n, page) else Stuck
    case ReadNext(n, page) => Outer(n, page, page, WordOf(sh.mem, page, 1))
    case Outer(n, start, page, next) =>
      if page < start then Stuck
      else if Length(start, page) < n - 1 then Inner(n, start, page, next)
      else ReadStart(n, start, page, next)
    case Inner(n, start, page, next) =>
      if next == page + 4096 && Length(start, page) < n - 1 then Advance(n, start, next)
      else if next != page + 4096 then Stuck
      else Outer(n, start, page, next)
    case Advance(n, start, page) =>
      var next := WordOf(sh.mem, page, 1);
      if next == 0 then Done(Nothing) else Inner(n, start, page, next)
    case ReadStart(n, start, page, next) =>
      Stores(TakeStores(WordOf(sh.mem, start, 0), start, page, next), Done(Got(PageNo(start))))
    case Linking(p, n, i) =>
      if i < n then Stores(LinkStores(p, i), Linking(p, n, i + 1)) else Choose(p, n)
    case Choose(p, n) =>
      if n == 0 then Stuck
      else if sh.free.None? then Stores(OnlyStores(p, n), Done(Returned))
      else if sh.free.value > 4096 * (p + n - 1) then Stores(FirstStores(p, n, sh.free.value), Done(Returned))
      else Search(p, n, sh.free.value)
    case Search(p, n, head) =>
      var next := WordOf(sh.mem, head, 1);
      if n == 0 then Stuck
      else if next != 0 && next < 4096 * (p + n - 1) then Search(p, n, next)
      else if next == 0 then Stores(LastStores(p, n, head), Done(Returned))
      else Stores(MiddleStores(p, n, head, next), Done(Returned))
    case Stores(todo, after) =>
      if |todo| <= 1 then after else Stores(todo[1..], after)
    case Done(_) => local
    case Stuck => Stuck
  }

  function StepShared(local: Local, sh: Shared): Shared {
    if local.Stores? && local.todo != [] then Apply(sh, local.todo[0]) else sh
  }

  function Code(): Program<Local> {
    Program(
      (op: Op) => op.n >= 1,
      (op: Op) => Begin(op),
      (c: Conf<Local>) => Conf(StepLocal(c.local, c.sh), StepShared(c.local, c.sh)),
      (l: Local) => if l.Done? then Some(l.answer) else None)
  }

  // ---- Where a section is, from the pool state `s` it started in ----

  /** `alloc_pages` has measured the first `i + 1` pages of the list. */
  ghost predicate Measured(n: nat, s: PoolState, start: nat, page: nat, i: nat) {
    && i < |s.list| && i < n && Contiguous(s.list, i + 1)
    && start == 4096 * s.list[0] && page == 4096 * s.list[i]
  }

  /** At the test of the outer loop: at the start, or with a region that is long enough and not the
      end of its run. */
  ghost predicate AtOuter(n: nat, s: PoolState, start: nat, page: nat, next: nat, i: nat) {
    && Measured(n, s, start, page, i) && next == NextLink(s.list, i)
    && (i == 0 || (i == n - 1 && Contiguous(s.list, n + 1)))
  }

  ghost predicate AtInner(n: nat, s: PoolState, start: nat, page: nat, next: nat, i: nat) {
    Measured(n, s, start, page, i) && next == NextLink(s.list, i) && n >= 2 && (i > 0 ==> next != 0)
  }

  /** A request that is neither served nor refused: a gap, or the end of a list of one page, comes first. */
  ghost predicate Gap(op: Op, list: seq<nat>) {
    op.TakeOp? && !Serves(list, op.n) && !Refuses(list, op.n)
  }

  ghost predicate RegionLinkedTo(op: Op, p: nat, n: nat, s: PoolState, sh: Shared, i: nat) {
    op == GiveOp(p, n) && i <= n && sh.free == Head(s.list) && PartlyLinked(s.mem, sh.mem, p, i)
  }

  ghost predicate Untouched(s: PoolState, sh: Shared) {
    sh == Shared(s.mem, Head(s.list))
  }

  ghost predicate Here(op: Op, s: PoolState, local: Local, sh: Shared) {
    match local
    case Begin(o) => o == op && Untouched(s, sh)
    case ReadPrev(n, page) => op == TakeOp(n) && Untouched(s, sh) && Measured(n, s, page, page, 0)
    case ReadNext(n, page) => op == TakeOp(n) && Untouched(s, sh) && Measured(n, s, page, page, 0)
    case Outer(n, start, page, next) =>
      op == TakeOp(n) && Untouched(s, sh) && exists i: nat :: AtOuter(n, s, start, page, next, i)
    case Inner(n, start, page, next) =>
      op == TakeOp(n) && Untouched(s, sh) && exists i: nat :: AtInner(n, s, start, page, next, i)
    case Advance(n, start, page) =>
      op == TakeOp(n) && Untouched(s, sh) && n >= 2 && exists i: nat :: i > 0 && Measured(n, s, start, page, i)
    case ReadStart(n, start, page, next) =>
      && op == TakeOp(n) && Untouched(s, sh) && Serves(s.list, n)
      && Measured(n, s, start, page, n - 1) && next == NextLink(s.list, n - 1)
    case Linking(p, n, i) => RegionLinkedTo(op, p, n, s, sh, i)
    case Choose(p, n) => RegionLinkedTo(op, p, n, s, sh, n)
    case Search(p, n, head) =>
      RegionLinkedTo(op, p, n, s, sh, n) && exists i: nat :: Before(s.list, head, p, i)
    case Done(a) => exists list :: Effect(op, s, a, sh, list)
    case Stuck => Gap(op, s.list)
    case Stores(_, _) => false
  }

  ghost predicate Before(list: seq<nat>, head: nat, p: nat, i: nat) {
    i < |list| && head == 4096 * list[i] && list[i] < p
  }

  /** ... where a section with stores to do will be when it has done them. */
  ghost predicate Inv(op: Op, s: PoolState, c: Conf<Local>) {
    if c.local.Stores? then
      && |c.sh.mem| == |s.mem|
      && Targets(c.local.todo, Footprint(op, s))
      && Here(op, s, c.local.after, ApplyAll(c.sh, c.local.todo))
    else |c.sh.mem| == |s.mem| && Here(op, s, c.local, c.sh)
  }

  // ---- What the stores amount to ----

  lemma ApplyTwo(sh: Shared, a: Store, b: Store, rest: seq<Store>)
    ensures ApplyAll(sh, [a] + rest) == ApplyAll(Apply(sh, a), rest)
    ensures ApplyAll(sh, [a, b] + rest) == ApplyAll(Apply(Apply(sh, a), b), rest)
  {
    assert ([a] + rest)[1..] == rest;
    assert ([a, b] + rest)[1..] == [b] + rest;
    assert ([b] + rest)[1..] == rest;
  }

  /** A page with its words from `k` on zeroed. */
  function ZeroedFrom(z: Page, k: nat): Page
    requires k <= 512
  {
    z[..k] + seq(512 - k, _ => 0)
  }

  lemma {:induction false} ZeroWordsApply(sh: Shared, p: nat, k: nat, rest: seq<Store>)
    requires p < |sh.mem| && k <= 512
    ensures ApplyAll(sh, ZeroWords(p)[k..] + rest) ==
      ApplyAll(sh.(mem := sh.mem[p := ZeroedFrom(sh.mem[p], k)]), rest)
    decreases 512 - k
  {
    var z := sh.mem[p];
    if k == 512 {
      assert ZeroedFrom(z, k) == z && sh.mem[p := z] == sh.mem;
      assert ZeroWords(p)[k..] + rest == rest;
    } else {
      var st := WordAt(p, k, 0);
      assert ZeroWords(p)[k..] + rest == [st] + (ZeroWords(p)[k + 1..] + rest);
      ApplyTwo(sh, st, st, ZeroWords(p)[k + 1..] + rest);
      ZeroWordsApply(Apply(sh, st), p, k + 1, rest);
      assert ZeroedFrom(z[k := 0], k + 1) == ZeroedFrom(z, k);
      assert sh.mem[p := z[k := 0]][p := ZeroedFrom(z, k)] == sh.mem[p := ZeroedFrom(z, k)];
    }
  }

  lemma PageZeroed(sh: Shared, p: nat, rest: seq<Store>)
    requires p < |sh.mem|
    ensures ApplyAll(sh, ZeroWords(p) + rest) == ApplyAll(sh.(mem := sh.mem[p := ZeroPage()]), rest)
  {
    ZeroWordsApply(sh, p, 0, rest);
    assert ZeroWords(p)[0..] == ZeroWords(p);
    assert ZeroedFrom(sh.mem[p], 0) == ZeroPage();
  }

  lemma {:induction false} ZerosApply(sh: Shared, p: nat, n: nat)
    requires p + n <= |sh.mem|
    ensures var sh' := ApplyAll(sh, Zeros(p, n));
      sh'.free == sh.free && ZeroedRegion(sh.mem, sh'.mem, p, n)
    decreases n
  {
    if n > 0 {
      PageZeroed(sh, p, Zeros(p + 1, n - 1));
      ZerosApply(sh.(mem := sh.mem[p := ZeroPage()]), p + 1, n - 1);
    }
  }

  /** The end of `alloc_pages` takes the first `n` pages. */
  lemma TakeEffect(s: PoolState, n: nat, lo: nat, hi: nat)
    requires Accounted(s, lo, hi) && 1 <= lo && Serves(s.list, n) && Contiguous(s.list, n)
    ensures var todo := TakeStores(0, 4096 * s.list[0], 4096 * s.list[n - 1], NextLink(s.list, n - 1));
      Effect(TakeOp(n), s, Got(s.list[0]), ApplyAll(Shared(s.mem, Head(s.list)), todo), s.list[n..])
  {
    var list, sh0 := s.list, Shared(s.mem, Head(s.list));
    ListBounds(s, lo, hi);
    TakeUnfold(sh0, list, n);
    UnlinkedRest(s.mem, list, n, Unlinked(sh0, list, n).mem);
    assert list[n - 1] == list[0] + n - 1;
    ZeroedTaken(s.mem, list, n, Unlinked(sh0, list, n));
  }

  lemma ZeroedTaken(m: Mem, list: seq<nat>, n: nat, sh: Shared)
    requires Sorted(list) && 1 <= n && Contiguous(list, n) && list[0] + n <= |sh.mem|
    requires Linked(sh.mem, list[n..]) && SameOutside(m, sh.mem, Elems(list[n..]))
    ensures var sh' := ApplyAll(sh, Zeros(list[0], n)); sh'.free == sh.free && TakeStep(m, list, n, sh'.mem, list[n..])
  {
    ZerosApply(sh, list[0], n);
    var sh' := ApplyAll(sh, Zeros(list[0], n));
    TakenStaysLinked(list, n, sh.mem, sh'.mem);
    TakenFrame(list, n, m, sh.mem, sh'.mem);
  }

  /** The list cut off behind its first `n` pages. */
  function Unlinked(sh: Shared, list: seq<nat>, n: nat): Shared
    requires 1 <= n <= |list| && forall i :: 0 <= i < |list| ==> list[i] < |sh.mem|
  {
    Shared(if n == |list| then sh.mem else Put(sh.mem, list[n], 0, 0), Head(list[n..]))
  }

  lemma TakeUnfold(sh: Shared, list: seq<nat>, n: nat)
    requires 1 <= n <= |list| && Contiguous(list, n) && forall i :: 0 <= i < |list| ==> 1 <= list[i] < |sh.mem|
    ensures ApplyAll(sh, TakeStores(0, 4096 * list[0], 4096 * list[n - 1], NextLink(list, n - 1))) ==
      ApplyAll(Unlinked(sh, list, n), Zeros(list[0], n))
  {
    var next, rest := NextLink(list, n - 1), Zeros(list[0], n);
    var todo := TakeStores(0, 4096 * list[0], 4096 * list[n - 1], next);
    RegionLength(list, n - 1);
    if n == |list| {
      assert todo == [SetFree(None)] + rest;
      ApplyTwo(sh, SetFree(None), SetFree(None), rest);
    } else {
      assert PageNo(next) == list[n] && next != 0;
      assert todo == [WordAt(list[n], 0, 0), SetFree(Some(next))] + rest;
      ApplyTwo(sh, WordAt(list[n], 0, 0), SetFree(Some(next)), rest);
    }
  }

  lemma RegionLength(list: seq<nat>, i: nat)
    requires i < |list| && Contiguous(list, i + 1)
    ensures PageNo(4096 * list[0]) == list[0] && 4096 * list[i] >= 4096 * list[0]
    ensures Length(4096 * list[0], 4096 * list[i]) == i
  {
    assert 4096 * list[i] - 4096 * list[0] == 4096 * i;
  }

  lemma UnlinkedRest(m: Mem, list: seq<nat>, n: nat, m': Mem)
    requires Sorted(list) && Linked(m, list) && 1 <= n <= |list|
    requires m' == if n == |list| then m else Put(m, list[n], 0, 0)
    ensures Linked(m', list[n..]) && SameOutside(m, m', Elems(list[n..]))
  {
    if n < |list| {
      assert LinkedAt(m, list, n);
      Relink(PrevLink(list, n), NextLink(list, n), 0);
      assert list[n] == list[n..][0];
    }
    DropLinked(m, list, n, m');
  }

  lemma ListBounds(s: PoolState, lo: nat, hi: nat)
    requires Accounted(s, lo, hi)
    ensures InRange(s.list, lo, hi)
  {
    RegionElems(lo, hi - lo);
    forall i | 0 <= i < |s.list| ensures lo <= s.list[i] < hi {
      assert s.list[i] in Elems(s.list);
    }
  }

  /** A round of the linking loop links one more page. */
  lemma LinkRound(m: Mem, sh: Shared, p: nat, i: nat)
    requires PartlyLinked(m, sh.mem, p, i) && p + i < |m|
    ensures var sh' := ApplyAll(sh, LinkStores(p, i)); sh'.free == sh.free && PartlyLinked(m, sh'.mem, p, i + 1)
  {
    var rest := if i == 0 then [WordAt(p, 1, 4096 * (p + 1))]
                else [WordAt(p + i, 0, 4096 * (p + i - 1)), WordAt(p + i - 1, 1, 4096 * (p + i))];
    var sh1 := sh.(mem := sh.mem[p + i := ZeroPage()]);
    PageZeroed(sh, p + i, rest);
    assert rest == rest + [];
    ApplyTwo(sh1, rest[0], rest[|rest| - 1], []);
    LinkOneMore(m, sh.mem, ApplyAll(sh1, rest).mem, p, i);
  }

  /** Up to four stores, one after the other. */
  lemma ApplyThree(sh: Shared, todo: seq<Store>)
    ensures |todo| == 2 ==> ApplyAll(sh, todo) == Apply(Apply(sh, todo[0]), todo[1])
    ensures |todo| == 3 ==> ApplyAll(sh, todo) == Apply(Apply(Apply(sh, todo[0]), todo[1]), todo[2])
    ensures |todo| == 4 ==> ApplyAll(sh, todo) == Apply(Apply(Apply(Apply(sh, todo[0]), todo[1]), todo[2]), todo[3])
  {
    if 2 <= |todo| <= 4 {
      var t := todo[2..];
      assert todo == [todo[0], todo[1]] + t;
      ApplyTwo(sh, todo[0], todo[1], t);
      if |t| == 1 {
        assert t == [t[0]] + [];
        ApplyTwo(Apply(Apply(sh, todo[0]), todo[1]), t[0], t[0], []);
      } else if |t| == 2 {
        assert t == [t[0], t[1]] + [];
        ApplyTwo(Apply(Apply(sh, todo[0]), todo[1]), t[0], t[1], []);
      }
    }
  }

  /** A region joined between entries `at - 1` and `at` has been given back. */
  lemma JoinEffect(s: PoolState, m: Mem, at: nat, p: nat, n: nat, left: nat, right: nat, lo: nat, hi: nat)
    requires Accounted(s, lo, hi) && 1 <= lo && n >= 1 && PartlyLinked(s.mem, m, p, n)
    requires FitsAt(s.list, at, p, n) && Apart(s.list, p, n)
    requires left == if at == 0 then 0 else 4096 * s.list[at - 1]
    requires right == if at < |s.list| then 4096 * s.list[at] else 0
    ensures PageNo(left) < |m| && PageNo(right) < |m|
    ensures GiveStep(s.mem, s.list, p, n, Joined(m, left, p, n, right), Splice(s.list, at, p, n))
  {
    ListBounds(s, lo, hi);
    LinkBounds(s.list, at, left, right, |m|);
    JoinedList(s.mem, m, s.list, at, p, n, left, right);
    SpliceElems(s.list, at, p, n);
    SpliceFrame(s.mem, m, Joined(m, left, p, n, right), s.list, at, p, n);
  }

  lemma PutCommute(m: Mem, p: nat, k: nat, v: nat, q: nat, l: nat, w: nat)
    requires p < |m| && q < |m| && k < 512 && l < 512 && (p != q || k != l)
    ensures Put(Put(m, p, k, v), q, l, w) == Put(Put(m, q, l, w), p, k, v)
  {
    if p == q {
      assert m[p][k := v][l := w] == m[p][l := w][k := v];
    }
    assert Put(Put(m, p, k, v), q, l, w)[p] == Put(Put(m, q, l, w), p, k, v)[p];
  }

  lemma PutReverse(m: Mem, p: nat, k: nat, v: nat, q: nat, l: nat, w: nat, r: nat, j: nat, x: nat)
    requires p < |m| && q < |m| && r < |m| && k < 512 && l < 512 && j < 512
    requires (p != q || k != l) && (q != r || l != j) && (p != r || k != j)
    ensures Put(Put(Put(m, p, k, v), q, l, w), r, j, x) == Put(Put(Put(m, r, j, x), q, l, w), p, k, v)
  {
    PutCommute(m, p, k, v, q, l, w);
    PutCommute(Put(m, q, l, w), p, k, v, r, j, x);
    PutCommute(m, q, l, w, r, j, x);
  }

  lemma LinkThree(sh: Shared, p: nat, k: nat, v: nat, q: nat, l: nat, w: nat, r: nat, j: nat, x: nat, rest: seq<Store>)
    requires p < |sh.mem| && q < |sh.mem| && r < |sh.mem| && k < 512 && l < 512 && j < 512 && |rest| <= 1
    ensures ApplyAll(sh, [WordAt(p, k, v), WordAt(q, l, w), WordAt(r, j, x)] + rest) ==
      ApplyAll(Shared(Put(Put(Put(sh.mem, p, k, v), q, l, w), r, j, x), sh.free), rest)
  {
    var a, b, c := WordAt(p, k, v), WordAt(q, l, w), WordAt(r, j, x);
    assert [a, b, c] + rest == [a] + ([b] + ([c] + rest));
    var m1 := Put(sh.mem, p, k, v);
    var m2 := Put(m1, q, l, w);
    ApplyWord(sh, p, k, v, [b] + ([c] + rest));
    ApplyWord(Shared(m1, sh.free), q, l, w, [c] + rest);
    ApplyWord(Shared(m2, sh.free), r, j, x, rest);
  }

  lemma ApplyWord(sh: Shared, p: nat, k: nat, v: nat, rest: seq<Store>)
    requires p < |sh.mem| && k < 512
    ensures ApplyAll(sh, [WordAt(p, k, v)] + rest) == ApplyAll(Shared(Put(sh.mem, p, k, v), sh.free), rest)
  {
    assert ([WordAt(p, k, v)] + rest)[1..] == rest;
  }

  lemma ThreeThenFree(sh: Shared, p: nat, k: nat, v: nat, q: nat, l: nat, w: nat, r: nat, j: nat, x: nat, free: Option<nat>)
    requires p < |sh.mem| && q < |sh.mem| && r < |sh.mem| && k < 512 && l < 512 && j < 512
    ensures var sh' := ApplyAll(sh, [WordAt(p, k, v), WordAt(q, l, w), WordAt(r, j, x), SetFree(free)]);
      sh'.mem == Put(Put(Put(sh.mem, p, k, v), q, l, w), r, j, x) && sh'.free == free
  {
    var a, b, c, f := WordAt(p, k, v), WordAt(q, l, w), WordAt(r, j, x), SetFree(free);
    LinkThree(sh, p, k, v, q, l, w, r, j, x, [f]);
    assert [a, b, c, f] == [a, b, c] + [f];
    OneStore(Shared(Put(Put(Put(sh.mem, p, k, v), q, l, w), r, j, x), sh.free), f);
  }

  lemma FourWords(sh: Shared, p: nat, k: nat, v: nat, q: nat, l: nat, w: nat, r: nat, j: nat, x: nat,
                  s: nat, i: nat, y: nat)
    requires p < |sh.mem| && q < |sh.mem| && r < |sh.mem| && s < |sh.mem| && k < 512 && l < 512 && j < 512 && i < 512
    ensures var sh' := ApplyAll(sh, [WordAt(p, k, v), WordAt(q, l, w), WordAt(r, j, x), WordAt(s, i, y)]);
      sh'.mem == Put(Put(Put(Put(sh.mem, p, k, v), q, l, w), r, j, x), s, i, y) && sh'.free == sh.free
  {
    var a, b, c, d := WordAt(p, k, v), WordAt(q, l, w), WordAt(r, j, x), WordAt(s, i, y);
    LinkThree(sh, p, k, v, q, l, w, r, j, x, [d]);
    assert [a, b, c, d] == [a, b, c] + [d];
    OneStore(Shared(Put(Put(Put(sh.mem, p, k, v), q, l, w), r, j, x), sh.free), d);
  }

  lemma OneStore(sh: Shared, st: Store)
    ensures ApplyAll(sh, [st]) == Apply(sh, st)
  {
    assert [st][1..] == [];
  }

  // Whatever their order, the stores of `free_pages` join the region between its neighbours.

  lemma OnlyJoin(sh: Shared, p: nat, n: nat)
    requires n >= 1 && p + n <= |sh.mem|
    ensures var sh' := ApplyAll(sh, OnlyStores(p, n)); sh'.mem == Joined(sh.mem, 0, p, n, 0) && sh'.free == Some(4096 * p)
  {
    ApplyThree(sh, OnlyStores(p, n));
  }

  lemma FirstPuts(m: Mem, p: nat, n: nat, right: nat)
    requires n >= 1 && p + n <= |m| && PageNo(right) < |m| && !(p <= PageNo(right) < p + n) && right != 0
    ensures var e, r := p + n - 1, PageNo(right);
      Joined(m, 0, p, n, right) == Put(Put(Put(m, r, 0, 4096 * e), e, 1, right), p, 0, 0)
  {
    var e, r := p + n - 1, PageNo(right);
    PutReverse(m, r, 0, 4096 * e, e, 1, right, p, 0, 0);
  }

  lemma FirstJoin(sh: Shared, p: nat, n: nat, right: nat)
    requires n >= 1 && p + n <= |sh.mem| && PageNo(right) < |sh.mem| && !(p <= PageNo(right) < p + n) && right != 0
    ensures var sh' := ApplyAll(sh, FirstStores(p, n, right));
      sh'.mem == Joined(sh.mem, 0, p, n, right) && sh'.free == Some(4096 * p)
  {
    var e, r := p + n - 1, PageNo(right);
    FirstPuts(sh.mem, p, n, right);
    ThreeThenFree(sh, r, 0, 4096 * e, e, 1, right, p, 0, 0, Some(4096 * p));
    assert FirstStores(p, n, right) ==
      [WordAt(r, 0, 4096 * e), WordAt(e, 1, right), WordAt(p, 0, 0), SetFree(Some(4096 * p))];
  }

  lemma LastPuts(m: Mem, p: nat, n: nat, left: nat)
    requires n >= 1 && p + n <= |m| && PageNo(left) < |m| && !(p <= PageNo(left) < p + n) && left != 0
    ensures var e, l := p + n - 1, PageNo(left);
      Joined(m, left, p, n, 0) == Put(Put(Put(m, e, 1, 0), p, 0, left), l, 1, 4096 * p)
  {
    var e, l := p + n - 1, PageNo(left);
    PutReverse(m, e, 1, 0, p, 0, left, l, 1, 4096 * p);
  }

  lemma LastJoin(sh: Shared, p: nat, n: nat, left: nat)
    requires n >= 1 && p + n <= |sh.mem| && PageNo(left) < |sh.mem| && !(p <= PageNo(left) < p + n) && left != 0
    ensures var sh' := ApplyAll(sh, LastStores(p, n, left)); sh'.mem == Joined(sh.mem, left, p, n, 0) && sh'.free == sh.free
  {
    var e, l := p + n - 1, PageNo(left);
    LastPuts(sh.mem, p, n, left);
    assert LastStores(p, n, left) == [WordAt(e, 1, 0), WordAt(p, 0, left), WordAt(l, 1, 4096 * p)] + [];
    LinkThree(sh, e, 1, 0, p, 0, left, l, 1, 4096 * p, []);
  }

  lemma MiddlePuts(m: Mem, p: nat, n: nat, left: nat, right: nat)
    requires n >= 1 && p + n <= |m| && PageNo(left) < |m| && PageNo(right) < |m| && left != 0 && right != 0
    ensures var e, l, r := p + n - 1, PageNo(left), PageNo(right);
      Joined(m, left, p, n, right) == Put(Put(Put(Put(m, l, 1, 4096 * p), p, 0, left), e, 1, right), r, 0, 4096 * e)
  {
  }

  lemma MiddleJoin(sh: Shared, p: nat, n: nat, left: nat, right: nat)
    requires n >= 1 && p + n <= |sh.mem| && PageNo(left) < |sh.mem| && PageNo(right) < |sh.mem| && left != 0 && right != 0
    ensures var sh' := ApplyAll(sh, MiddleStores(p, n, left, right));
      sh'.mem == Joined(sh.mem, left, p, n, right) && sh'.free == sh.free
  {
    var e, l, r := p + n - 1, PageNo(left), PageNo(right);
    var todo := [WordAt(l, 1, 4096 * p), WordAt(p, 0, left), WordAt(e, 1, right), WordAt(r, 0, 4096 * e)];
    assert MiddleStores(p, n, left, right) == todo;
    var m := Put(Put(Put(Put(sh.mem, l, 1, 4096 * p), p, 0, left), e, 1, right), r, 0, 4096 * e);
    assert ApplyAll(sh, todo).mem == m && ApplyAll(sh, todo).free == sh.free by {
      FourWords(sh, l, 1, 4096 * p, p, 0, left, e, 1, right, r, 0, 4096 * e);
    }
    assert Joined(sh.mem, left, p, n, right) == m by {
      MiddlePuts(sh.mem, p, n, left, right);
    }
  }

  // ---- Every step keeps the section on its way ----

  /** What a section that gives pages back can rely on. */
  lemma GivenPages(op: Op, s: PoolState, lo: nat, hi: nat)
    requires Startable(Code(), op, s, lo, hi) && op.GiveOp?
    ensures op.p + op.n <= |s.mem| && Apart(s.list, op.p, op.n) && op.n >= 1
    ensures forall q :: op.p <= q < op.p + op.n ==> q in Footprint(op, s)
  {
    RegionElems(op.p, op.n);
    RegionElems(lo, hi - lo);
    assert op.p + op.n - 1 in OpPages(op);
    forall i | 0 <= i < |s.list| ensures !(op.p <= s.list[i] < op.p + op.n) {
      assert s.list[i] in Elems(s.list);
    }
  }

  ghost predicate Targets(todo: seq<Store>, fp: set<nat>) {
    forall i :: 0 <= i < |todo| ==> Target(todo[i]) <= fp
  }

  lemma {:induction false} ZerosTargets(p: nat, n: nat, fp: set<nat>)
    requires forall q :: p <= q < p + n ==> q in fp
    ensures Targets(Zeros(p, n), fp)
    decreases n
  {
    if n > 0 {
      ZerosTargets(p + 1, n - 1, fp);
      TargetsCat(ZeroWords(p), Zeros(p + 1, n - 1), fp);
    }
  }

  lemma TargetsCat(a: seq<Store>, b: seq<Store>, fp: set<nat>)
    requires Targets(a, fp) && Targets(b, fp)
    ensures Targets(a + b, fp)
  {
  }

  lemma OuterStep(op: Op, s: PoolState, c: Conf<Local>, lo: nat, hi: nat)
    requires Startable(Code(), op, s, lo, hi) && Inv(op, s, c) && c.local.Outer?
    ensures Inv(op, s, Code().step(c))
  {
    var Outer(n, start, page, next) := c.local;
    var i: nat :| AtOuter(n, s, start, page, next, i);
    RegionLength(s.list, i);
    assert i < n - 1 ==> AtInner(n, s, start, page, next, i);
  }

  lemma InnerStep(op: Op, s: PoolState, c: Conf<Local>, lo: nat, hi: nat)
    requires Startable(Code(), op, s, lo, hi) && Inv(op, s, c) && c.local.Inner?
    ensures Inv(op, s, Code().step(c))
  {
    var Inner(n, start, page, next) := c.local;
    var i: nat :| AtInner(n, s, start, page, next, i);
    RegionLength(s.list, i);
    if next == page + 4096 {
      if i < n - 1 {
        assert Measured(n, s, start, next, i + 1);
      } else {
        assert AtOuter(n, s, start, page, next, i);
      }
    } else {
      assert Contiguous(s.list, i + 1) && !Contiguous(s.list, i + 2);
    }
  }

  lemma AdvanceStep(op: Op, s: PoolState, c: Conf<Local>, lo: nat, hi: nat)
    requires Startable(Code(), op, s, lo, hi) && Inv(op, s, c) && c.local.Advance?
    ensures Inv(op, s, Code().step(c))
  {
    var Advance(n, start, page) := c.local;
    var i: nat :| i > 0 && Measured(n, s, start, page, i);
    ListBounds(s, lo, hi);
    LinkRead(s.mem, s.list, i);
    if NextLink(s.list, i) == 0 {
      assert i + 1 == |s.list|;
      assert Effect(op, s, Nothing, c.sh, s.list);
    } else {
      assert AtInner(n, s, start, page, NextLink(s.list, i), i);
    }
  }

  lemma ReadStep(op: Op, s: PoolState, c: Conf<Local>, lo: nat, hi: nat)
    requires Startable(Code(), op, s, lo, hi) && Inv(op, s, c) && (c.local.ReadPrev? || c.local.ReadNext?)
    ensures Inv(op, s, Code().step(c))
  {
    LinkRead(s.mem, s.list, 0);
    if c.local.ReadNext? {
      assert AtOuter(c.local.n, s, c.local.page, c.local.page, NextLink(s.list, 0), 0);
    }
  }

  lemma LinkRead(m: Mem, list: seq<nat>, i: nat)
    requires Linked(m, list) && i < |list|
    ensures WordOf(m, 4096 * list[i], 0) == PrevLink(list, i) && WordOf(m, 4096 * list[i], 1) == NextLink(list, i)
  {
    assert LinkedAt(m, list, i);
    Relink(PrevLink(list, i), NextLink(list, i), 0);
    assert PageNo(4096 * list[i]) == list[i];
  }

  lemma ReadStartStep(op: Op, s: PoolState, c: Conf<Local>, lo: nat, hi: nat)
    requires Startable(Code(), op, s, lo, hi) && Inv(op, s, c) && c.local.ReadStart?
    ensures Inv(op, s, Code().step(c))
  {
    LinkRead(s.mem, s.list, 0);
    TakeHere(s, op.n, c.sh, lo, hi);
  }

  lemma TakeHere(s: PoolState, n: nat, sh: Shared, lo: nat, hi: nat)
    requires Accounted(s, lo, hi) && 1 <= lo && Serves(s.list, n) && Contiguous(s.list, n) && Untouched(s, sh)
    ensures var start, page := 4096 * s.list[0], 4096 * s.list[n - 1];
      Inv(TakeOp(n), s, Conf(Stores(TakeStores(0, start, page, NextLink(s.list, n - 1)), Done(Got(PageNo(start)))), sh))
  {
    RegionLength(s.list, n - 1);
    TakeEffect(s, n, lo, hi);
    TakeTargets(s, n, lo, hi);
  }

  lemma TakeTargets(s: PoolState, n: nat, lo: nat, hi: nat)
    requires Accounted(s, lo, hi) && 1 <= n && Contiguous(s.list, n)
    ensures Targets(TakeStores(0, 4096 * s.list[0], 4096 * s.list[n - 1], NextLink(s.list, n - 1)), Footprint(TakeOp(n), s))
  {
    var next := NextLink(s.list, n - 1);
    RegionLength(s.list, n - 1);
    ContiguousElems(s.list, n);
    ZerosTargets(s.list[0], n, Footprint(TakeOp(n), s));
    assert next != 0 ==> PageNo(next) == s.list[n] && s.list[n] in Elems(s.list);
  }

  lemma SpliceHead(list: seq<nat>, at: nat, p: nat, n: nat)
    requires at <= |list| && n >= 1
    ensures Head(Splice(list, at, p, n)) == if at == 0 then Some(4096 * p) else Head(list)
  {
  }

  /** A section about to store the joins is about to have given the region back. */
  lemma JoinHere(op: Op, s: PoolState, sh: Shared, todo: seq<Store>, at: nat, left: nat, right: nat, lo: nat, hi: nat)
    requires Startable(Code(), op, s, lo, hi) && op.GiveOp? && RegionLinkedTo(op, op.p, op.n, s, sh, op.n)
    requires FitsAt(s.list, at, op.p, op.n) && PageNo(left) < |s.mem| && PageNo(right) < |s.mem|
    requires op.p + op.n <= |s.mem| && op.n >= 1
    requires left == if at == 0 then 0 else 4096 * s.list[at - 1]
    requires right == if at < |s.list| then 4096 * s.list[at] else 0
    requires ApplyAll(sh, todo).mem == Joined(sh.mem, left, op.p, op.n, right)
    requires ApplyAll(sh, todo).free == if at == 0 then Some(4096 * op.p) else sh.free
    requires Targets(todo, Footprint(op, s))
    ensures Inv(op, s, Conf(Stores(todo, Done(Returned)), sh))
  {
    GivenPages(op, s, lo, hi);
    JoinEffect(s, sh.mem, at, op.p, op.n, left, right, lo, hi);
    SpliceHead(s.list, at, op.p, op.n);
    assert Effect(op, s, Returned, ApplyAll(sh, todo), Splice(s.list, at, op.p, op.n));
  }

  lemma ChooseStep(op: Op, s: PoolState, c: Conf<Local>, lo: nat, hi: nat)
    requires Startable(Code(), op, s, lo, hi) && Inv(op, s, c) && c.local.Choose?
    ensures Inv(op, s, Code().step(c))
  {
    var Choose(p, n) := c.local;
    GivenPages(op, s, lo, hi);
    ListBounds(s, lo, hi);
    if s.list == [] {
      OnlyJoin(c.sh, p, n);
      JoinHere(op, s, c.sh, OnlyStores(p, n), 0, 0, 0, lo, hi);
    } else {
      var head := 4096 * s.list[0];
      assert PageNo(head) == s.list[0] && s.list[0] in Elems(s.list);
      if head > 4096 * (p + n - 1) {
        FirstJoin(c.sh, p, n, head);
        JoinHere(op, s, c.sh, FirstStores(p, n, head), 0, 0, head, lo, hi);
      } else {
        assert Before(s.list, head, p, 0);
      }
    }
  }

  lemma SearchStep(op: Op, s: PoolState, c: Conf<Local>, lo: nat, hi: nat)
    requires Startable(Code(), op, s, lo, hi) && Inv(op, s, c) && c.local.Search?
    ensures Inv(op, s, Code().step(c))
  {
    var Search(p, n, head) := c.local;
    var i: nat :| Before(s.list, head, p, i);
    GivenPages(op, s, lo, hi);
    ListBounds(s, lo, hi);
    RegionApart(s.mem, c.sh.mem, s.list, p, n);
    LinkRead(c.sh.mem, s.list, i);
    if i + 1 < |s.list| && 4096 * s.list[i + 1] < 4096 * (p + n - 1) {
      assert Before(s.list, 4096 * s.list[i + 1], p, i + 1);
    } else {
      SearchEnd(op, s, c.sh, i, lo, hi);
    }
  }

  lemma SearchEnd(op: Op, s: PoolState, sh: Shared, i: nat, lo: nat, hi: nat)
    requires Startable(Code(), op, s, lo, hi) && op.GiveOp? && op.n >= 1 && RegionLinkedTo(op, op.p, op.n, s, sh, op.n)
    requires i < |s.list| && s.list[i] < op.p && (i + 1 < |s.list| ==> s.list[i + 1] >= op.p + op.n - 1)
    ensures var head, next := 4096 * s.list[i], NextLink(s.list, i);
      var todo := if next == 0 then LastStores(op.p, op.n, head) else MiddleStores(op.p, op.n, head, next);
      Inv(op, s, Conf(Stores(todo, Done(Returned)), sh))
  {
    var p, n, head := op.p, op.n, 4096 * s.list[i];
    GivenPages(op, s, lo, hi);
    ListBounds(s, lo, hi);
    assert PageNo(head) == s.list[i] && s.list[i] in Elems(s.list);
    if i + 1 == |s.list| {
      LastJoin(sh, p, n, head);
      JoinHere(op, s, sh, LastStores(p, n, head), i + 1, head, 0, lo, hi);
    } else {
      var next := 4096 * s.list[i + 1];
      assert PageNo(next) == s.list[i + 1] && s.list[i + 1] in Elems(s.list);
      MiddleJoin(sh, p, n, head, next);
      JoinHere(op, s, sh, MiddleStores(p, n, head, next), i + 1, head, next, lo, hi);
    }
  }

  lemma LinkingStep(op: Op, s: PoolState, c: Conf<Local>, lo: nat, hi: nat)
    requires Startable(Code(), op, s, lo, hi) && Inv(op, s, c) && c.local.Linking?
    ensures Inv(op, s, Code().step(c))
  {
    var Linking(p, n, i) := c.local;
    GivenPages(op, s, lo, hi);
    if i < n {
      LinkRound(s.mem, c.sh, p, i);
      LinkTargets(p, i, Footprint(op, s));
    }
  }

  lemma LinkTargets(p: nat, i: nat, fp: set<nat>)
    requires p + i in fp && (i > 0 ==> p + i - 1 in fp)
    ensures Targets(LinkStores(p, i), fp)
  {
    var rest := LinkStores(p, i)[512..];
    assert LinkStores(p, i) == ZeroWords(p + i) + rest;
  }

  lemma StoresStep(op: Op, s: PoolState, c: Conf<Local>)
    requires Inv(op, s, c) && c.local.Stores?
    ensures Inv(op, s, Code().step(c))
  {
    var todo := c.local.todo;
    if |todo| == 1 {
      ApplyTwo(c.sh, todo[0], todo[0], []);
      assert todo == [todo[0]] + [];
    }
  }

  /** Every single step keeps the section on its way to its effect. */
  lemma StepInv(op: Op, s: PoolState, c: Conf<Local>, lo: nat, hi: nat)
    requires Startable(Code(), op, s, lo, hi) && Inv(op, s, c) && !c.local.Done?
    ensures Inv(op, s, Code().step(c))
  {
    match c.local
    case Begin(_) => BeginStep(op, s, c, lo, hi);
    case ReadPrev(_, _) => ReadStep(op, s, c, lo, hi);
    case ReadNext(_, _) => ReadStep(op, s, c, lo, hi);
    case Outer(_, _, _, _) => OuterStep(op, s, c, lo, hi);
    case Inner(_, _, _, _) => InnerStep(op, s, c, lo, hi);
    case Advance(_, _, _) => AdvanceStep(op, s, c, lo, hi);
    case ReadStart(_, _, _, _) => ReadStartStep(op, s, c, lo, hi);
    case Linking(_, _, _) => LinkingStep(op, s, c, lo, hi);
    case Choose(_, _) => ChooseStep(op, s, c, lo, hi);
    case Search(_, _, _) => SearchStep(op, s, c, lo, hi);
    case Stores(_, _) => StoresStep(op, s, c);
    case Stuck =>
  }

  lemma BeginStep(op: Op, s: PoolState, c: Conf<Local>, lo: nat, hi: nat)
    requires Startable(Code(), op, s, lo, hi) && Inv(op, s, c) && c.local.Begin?
    ensures Inv(op, s, Code().step(c))
  {
    if op.TakeOp? {
      if s.list == [] {
        assert Effect(op, s, Nothing, c.sh, s.list);
      }
    } else {
      GivenPages(op, s, lo, hi);
    }
  }

  // ---- A section keeps to its footprint ----

  /** The pages a section reads links from are free pages. */
  lemma ReadsFree(op: Op, s: PoolState, c: Conf<Local>, m: Mem, lo: nat, hi: nat)
    requires Startable(Code(), op, s, lo, hi) && Inv(op, s, c) && !c.local.Stores?
    requires AgreeOn(c.sh.mem, m, Footprint(op, s))
    ensures StepLocal(c.local, c.sh.(mem := m)) == StepLocal(c.local, c.sh)
  {
    match c.local
    case ReadPrev(_, page) => LinkFrame(s, c.sh.mem, m, op, page, 0);
    case ReadNext(_, page) => LinkFrame(s, c.sh.mem, m, op, page, 0);
    case ReadStart(_, start, _, _) => LinkFrame(s, c.sh.mem, m, op, start, 0);
    case Advance(n, start, page) =>
      var i: nat :| i > 0 && Measured(n, s, start, page, i);
      LinkFrame(s, c.sh.mem, m, op, page, i);
    case Search(p, _, head) =>
      var i: nat :| Before(s.list, head, p, i);
      LinkFrame(s, c.sh.mem, m, op, head, i);
    case _ =>
  }

  lemma LinkFrame(s: PoolState, m: Mem, m': Mem, op: Op, page: nat, i: nat)
    requires i < |s.list| && page == 4096 * s.list[i] && AgreeOn(m, m', Footprint(op, s))
    ensures WordOf(m', page, 0) == WordOf(m, page, 0) && WordOf(m', page, 1) == WordOf(m, page, 1)
  {
    assert PageNo(page) == s.list[i] && s.list[i] in Elems(s.list);
  }

  lemma ApplyFrame(sh: Shared, m: Mem, st: Store, fp: set<nat>)
    requires AgreeOn(sh.mem, m, fp) && Target(st) <= fp
    ensures var a, b := Apply(sh, st), Apply(sh.(mem := m), st);
      b.free == a.free && AgreeOn(a.mem, b.mem, fp) && SameOutside(m, b.mem, fp)
  {
  }

  lemma StepFramed(op: Op, s: PoolState, c: Conf<Local>, lo: nat, hi: nat)
    requires Startable(Code(), op, s, lo, hi) && Inv(op, s, c)
    ensures Framed(Code(), c, Footprint(op, s))
  {
    var fp := Footprint(op, s);
    forall m | AgreeOn(c.sh.mem, m, fp) ensures SameMove(Code(), c, m, fp) {
      if c.local.Stores? {
        if c.local.todo != [] {
          assert Target(c.local.todo[0]) <= fp;
          ApplyFrame(c.sh, m, c.local.todo[0], fp);
        }
      } else {
        ReadsFree(op, s, c, m, lo, hi);
      }
    }
  }

  lemma {:induction false} InvAt(op: Op, s: PoolState, k: nat, lo: nat, hi: nat)
    requires Startable(Code(), op, s, lo, hi) && Unfinished(Code(), op, s, k)
    ensures Inv(op, s, At(Code(), op, s, k))
  {
    if k > 0 {
      assert Unfinished(Code(), op, s, k - 1);
      InvAt(op, s, k - 1, lo, hi);
      assert Code().result(At(Code(), op, s, k - 1).local).None?;
      StepInv(op, s, At(Code(), op, s, k - 1), lo, hi);
    }
  }

  /** `alloc_pages` and `free_pages`, for any number of pages, are what the lock needs: step by step
      they keep to the free pages and the pages given back, and where they come to an end they have
      taken or given back exactly the pages asked for, or refused for the pool's own reasons. */
  lemma CodeSound(lo: nat, hi: nat)
    ensures Sound(Code(), lo, hi)
  {
    var prog := Code();
    forall op, s, k: nat | Startable(prog, op, s, lo, hi) && Unfinished(prog, op, s, k) ensures Correct(prog, op, s, k) {
      InvAt(op, s, k, lo, hi);
      StepFramed(op, s, At(prog, op, s, k), lo, hi);
    }
  }

  // ---- A section comes to an end ----

  function Left(n: nat, i: nat): nat {
    if i < n then n - i else 0
  }

  /** A bound on the steps that a section has still to make, in a memory of `pages` pages. */
  function Rank(pages: nat, local: Local): nat {
    match local
    case Begin(TakeOp(n)) => 516 * n + 30
    case Begin(GiveOp(p, n)) => 520 * n + pages + 40
    case ReadPrev(n, _) => 516 * n + 29
    case ReadNext(n, _) => 516 * n + 28
    case Outer(n, start, page, _) =>
      var i := Length(start, page);
      if i + 1 >= n then 512 * n + 11 else 512 * n + 4 * Left(n, i) + 20
    case Inner(n, start, page, _) => 512 * n + 4 * Left(n, Length(start, page)) + 16
    case Advance(n, start, page) => 512 * n + 4 * Left(n, Length(start, page)) + 18
    case ReadStart(n, _, _, _) => 512 * n + 10
    case Linking(p, n, i) => 520 * Left(n, i) + pages + 30
    case Choose(_, _) => pages + 20
    case Search(_, _, head) => 10 + Left(pages, PageNo(head))
    case Stores(todo, after) => |todo| + 1 + Rank(pages, after)
    case Done(_) => 0
    case Stuck => 0
  }

  lemma RankFallsTake(op: Op, s: PoolState, c: Conf<Local>, lo: nat, hi: nat)
    requires Startable(Code(), op, s, lo, hi) && Inv(op, s, c)
    requires c.local.Outer? || c.local.Advance? || c.local.ReadNext?
    ensures Rank(|s.mem|, StepLocal(c.local, c.sh)) < Rank(|s.mem|, c.local)
  {
  }

  lemma RankFallsStart(op: Op, s: PoolState, c: Conf<Local>, lo: nat, hi: nat)
    requires Startable(Code(), op, s, lo, hi) && Inv(op, s, c) && c.local.ReadStart?
    ensures Rank(|s.mem|, StepLocal(c.local, c.sh)) < Rank(|s.mem|, c.local)
  {
    var ReadStart(n, start, page, next) := c.local;
    RegionLength(s.list, n - 1);
    assert Length(start, page) == n - 1;
  }

  lemma RankFallsInner(op: Op, s: PoolState, c: Conf<Local>, lo: nat, hi: nat)
    requires Startable(Code(), op, s, lo, hi) && Inv(op, s, c) && c.local.Inner?
    ensures Rank(|s.mem|, StepLocal(c.local, c.sh)) < Rank(|s.mem|, c.local)
  {
    var Inner(n, start, page, next) := c.local;
    var i: nat :| AtInner(n, s, start, page, next, i);
    RegionLength(s.list, i);
    if next == page + 4096 {
      RegionLength(s.list, i + 1);
    }
  }

  lemma RankFallsGive(op: Op, s: PoolState, c: Conf<Local>, lo: nat, hi: nat)
    requires Startable(Code(), op, s, lo, hi) && Inv(op, s, c)
    requires c.local.Linking? || c.local.Choose? || c.local.Search?
    ensures Rank(|s.mem|, StepLocal(c.local, c.sh)) < Rank(|s.mem|, c.local)
  {
    GivenPages(op, s, lo, hi);
    ListBounds(s, lo, hi);
    if c.local.Search? {
      var Search(p, n, head) := c.local;
      var i: nat :| Before(s.list, head, p, i);
      RegionApart(s.mem, c.sh.mem, s.list, p, n);
      LinkRead(c.sh.mem, s.list, i);
      assert PageNo(head) == s.list[i];
      assert i + 1 < |s.list| ==> PageNo(4096 * s.list[i + 1]) == s.list[i + 1];
    }
  }

  lemma RankFalls(op: Op, s: PoolState, c: Conf<Local>, lo: nat, hi: nat)
    requires Startable(Code(), op, s, lo, hi) && Inv(op, s, c) && !c.local.Done? && !c.local.Stuck?
    ensures Rank(|s.mem|, Code().step(c).local) < Rank(|s.mem|, c.local)
  {
    match c.local
    case Begin(_) =>
    case ReadPrev(_, _) =>
    case Stores(_, _) =>
    case Linking(_, _, _) => RankFallsGive(op, s, c, lo, hi);
    case Choose(_, _) => RankFallsGive(op, s, c, lo, hi);
    case Search(_, _, _) => RankFallsGive(op, s, c, lo, hi);
    case Inner(_, _, _, _) => RankFallsInner(op, s, c, lo, hi);
    case ReadStart(_, _, _, _) => RankFallsStart(op, s, c, lo, hi);
    case _ => RankFallsTake(op, s, c, lo, hi);
  }

  lemma {:induction false} EndsFrom(op: Op, s: PoolState, k: nat, lo: nat, hi: nat) returns (e: nat)
    requires Startable(Code(), op, s, lo, hi) && Unfinished(Code(), op, s, k)
    ensures Unfinished(Code(), op, s, e) && (At(Code(), op, s, e).local.Done? || At(Code(), op, s, e).local.Stuck?)
    decreases Rank(|s.mem|, At(Code(), op, s, k).local)
  {
    var c := At(Code(), op, s, k);
    InvAt(op, s, k, lo, hi);
    if c.local.Done? || c.local.Stuck? {
      e := k;
    } else {
      RankFalls(op, s, c, lo, hi);
      e := EndsFrom(op, s, k + 1, lo, hi);
    }
  }

  /** The section for `op` from `s` comes to the local state `l`, and not to an answer before. */
  ghost predicate Reaches(op: Op, s: PoolState, l: Local) {
    exists k: nat :: Unfinished(Code(), op, s, k) && At(Code(), op, s, k).local == l
  }

  /** Every section comes to exactly the end that the list decides: the first pages of the list when it
      serves the request, a refusal when it refuses it, and no regular end in the remaining cases, all of
      them requests for two pages or more; giving back always ends. */
  lemma SectionEnds(op: Op, s: PoolState, lo: nat, hi: nat)
    requires Startable(Code(), op, s, lo, hi)
    ensures op.GiveOp? ==> Reaches(op, s, Done(Returned))
    ensures op.TakeOp? && Serves(s.list, op.n) ==> Reaches(op, s, Done(Got(s.list[0])))
    ensures op.TakeOp? && Refuses(s.list, op.n) ==> Reaches(op, s, Done(Nothing))
    ensures Gap(op, s.list) ==> Reaches(op, s, Stuck)
  {
    var e := EndsFrom(op, s, 0, lo, hi);
    InvAt(op, s, e, lo, hi);
    assert Reaches(op, s, At(Code(), op, s, e).local);
    NotBoth(s.list, op.n);
  }

  lemma NotBoth(list: seq<nat>, n: nat)
    ensures !(Serves(list, n) && Refuses(list, n))
  {
  }

  /** Only one of these ends is ever reached. */
  lemma OneEnd(op: Op, s: PoolState, l: Local, lo: nat, hi: nat)
    requires Startable(Code(), op, s, lo, hi) && Reaches(op, s, l)
    ensures l == Stuck ==> Gap(op, s.list)
    ensures l == Done(Nothing) ==> op.TakeOp? && Refuses(s.list, op.n)
    ensures l.Done? && l.answer.Got? ==> op.TakeOp? && Serves(s.list, op.n) && l.answer.p == s.list[0]
    ensures l == Done(Returned) ==> op.GiveOp?
  {
    var k: nat :| Unfinished(Code(), op, s, k) && At(Code(), op, s, k).local == l;
    InvAt(op, s, k, lo, hi);
  }

  /** A section gets stuck exactly when the request is neither served nor refused. */
  lemma StuckAtGap(op: Op, s: PoolState, lo: nat, hi: nat)
    requires Startable(Code(), op, s, lo, hi)
    ensures Reaches(op, s, Stuck) <==> Gap(op, s.list)
  {
    SectionEnds(op, s, lo, hi);
    if Reaches(op, s, Stuck) {
      OneEnd(op, s, Stuck, lo, hi);
    }
  }

  /** The code taken access by access and `PagePool.Pool.AllocPages` agree: on a list that is not empty,
      the section ends with the pages, with a refusal or not at all, as the outcome `r` says. */
  lemma SameAsAllocPages(s: PoolState, n: nat, r: AllocOutcome, lo: nat, hi: nat)
    requires Startable(Code(), TakeOp(n), s, lo, hi) && s.list != [] && OutcomeFor(s.list, n, r)
    ensures r.Allocated? <==> Reaches(TakeOp(n), s, Done(Got(s.list[0])))
    ensures r.NoGap? <==> Reaches(TakeOp(n), s, Done(Nothing))
    ensures r.NullRegion? || r.Hang? || r.Trap? <==> Reaches(TakeOp(n), s, Stuck)
  {
    var op := TakeOp(n);
    SectionEnds(op, s, lo, hi);
    StuckAtGap(op, s, lo, hi);
    NotBoth(s.list, n);
    if Reaches(op, s, Done(Got(s.list[0]))) {
      OneEnd(op, s, Done(Got(s.list[0])), lo, hi);
    }
    if Reaches(op, s, Done(Nothing)) {
      OneEnd(op, s, Done(Nothing), lo, hi);
    }
  }

  /** For the pool's own code: whatever the interleaving of any number of harts, the pool goes
      through the sequential run of the completed requests in the order of acquisition, and no page
      is held by two harts. */
  lemma PoolLinearised(ws: seq<World<Local>>, acts: seq<Action>, s0: PoolState, lo: nat, hi: nat, k: nat)
    returns (ss: seq<PoolState>, es: seq<Event>)
    requires Execution(Code(), ws, acts) && Init(ws[0], s0, lo, hi) && k < |ws|
    ensures Run(ss, es) && ss[0] == s0 && OpsOf(es) == Completed(ws[k])
    ensures ws[k].lock == 0 ==> ws[k].sh == Shared(ss[|es|].mem, Head(ss[|es|].list))
    ensures forall g, h :: 0 <= g < |ws[k].held| && 0 <= h < |ws[k].held| && g != h ==> ws[k].held[g] !! ws[k].held[h]
    ensures forall h :: 0 <= h < |ws[k].held| ==> ws[k].held[h] <= ss[|es|].held
  {
    CodeSound(lo, hi);
    ss, es := Linearise(Code(), ws, acts, s0, lo, hi, k);
    var w := ws[k];
    forall g, h | 0 <= g < |w.held| && 0 <= h < |w.held| && g != h ensures w.held[g] !! w.held[h] {
      assert w.held[g] <= Share(w, g) && w.held[h] <= Share(w, h);
    }
    forall h | 0 <= h < |w.held| ensures w.held[h] <= ss[|es|].held {
      assert w.held[h] <= Share(w, h);
    }
  }

  /** What a request that is no gap leaves the hart with. */
  ghost function Receives(op: Op, list: seq<nat>): set<nat> {
    if op.TakeOp? && Serves(list, op.n) then Elems(Region(list[0], op.n)) else {}
  }

  /** Progress: whenever the lock is free, a hart that spins on a request which the free list serves or refuses,
      or with which it gives pages back, can go on on its own until it is idle again, with the lock free and
      exactly the pages that the free list has for it. */
  lemma Progress(ws: seq<World<Local>>, acts: seq<Action>, s0: PoolState, lo: nat, hi: nat, k: nat, h: nat)
    returns (list: seq<nat>, more: seq<World<Local>>, onward: seq<Action>)
    requires Execution(Code(), ws, acts) && Init(ws[0], s0, lo, hi) && k < |ws|
    requires ws[k].lock == 0 && h < |ws[k].harts| && ws[k].harts[h].Spinning?
    ensures Sorted(list) && Linked(ws[k].sh.mem, list) && ws[k].sh.free == Head(list)
    ensures !Gap(ws[k].harts[h].op, list) ==>
      && Execution(Code(), more, onward) && more[0] == ws[k]
      && (forall i :: 0 <= i < |onward| ==> onward[i].h == h)
      && var w, w' := ws[k], more[|onward|];
      && w'.lock == 0 && h < |w.held| && w'.harts == w.harts[h := Idle]
      && w'.held == w.held[h := w.held[h] + Receives(w.harts[h].op, list)]
  {
    CodeSound(lo, hi);
    var ss, es := Linearise(Code(), ws, acts, s0, lo, hi, k);
    var w, s := ws[k], ss[|es|];
    var op := w.harts[h].op;
    list, more, onward := s.list, [], [];
    assert OpPages(op) <= Share(w, h);
    assert Startable(Code(), op, s, lo, hi);
    if !Gap(op, list) {
      var e := EndsFrom(op, s, 0, lo, hi);
      InvAt(op, s, e, lo, hi);
      NotBoth(list, op.n);
      more, onward := Passes(Code(), w, h, s, e);
      assert Gained(op, At(Code(), op, s, e).local.answer) == Receives(op, list);
    }
  }
}
