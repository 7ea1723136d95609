/** Many harts around one page pool: the spinlock, the critical sections as sequences of small steps
    on shared memory, and the clients' writes to the pages they hold, all interleaved. The pool then
    goes through a sequential run of its operations in the order in which the lock was acquired. */
module Spinlock {
  import opened Memory
  import opened FreeList
  import opened PoolLaws

  /** A request to the pool: `n` pages, or `n` pages from `p` on given back. */
  datatype Op = TakeOp(n: nat) | GiveOp(p: nat, n: nat)

  datatype Answer = Got(p: nat) | Nothing | Returned

  /** What the harts share: memory and the head of the free list. */
  datatype Shared = Shared(mem: Mem, free: Option<nat>)

  datatype Conf<L> = Conf(local: L, sh: Shared)

  /** The code of the critical sections: registers on entry, one small step, and the answer once the
      section has come to its end. */
  datatype Program<!L> = Program(allows: Op -> bool, enter: Op -> L, step: Conf<L> -> Conf<L>, result: L -> Option<Answer>)

  // ---- A critical section on its own ----

  function Iter<L>(prog: Program<L>, c: Conf<L>, k: nat): Conf<L> {
    if k == 0 then c else prog.step(Iter(prog, c, k - 1))
  }

  function Head(list: seq<nat>): Option<nat> {
    if list == [] then None else Some(4096 * list[0])
  }

  ghost function Start<L>(prog: Program<L>, op: Op, s: PoolState): Conf<L> {
    Conf(prog.enter(op), Shared(s.mem, Head(s.list)))
  }

  ghost function At<L>(prog: Program<L>, op: Op, s: PoolState, k: nat): Conf<L> {
    Iter(prog, Start(prog, op, s), k)
  }

  ghost function OpPages(op: Op): set<nat> {
    if op.GiveOp? then Elems(Region(op.p, op.n)) else {}
  }

  ghost function Footprint(op: Op, s: PoolState): set<nat> {
    Elems(s.list) + OpPages(op)
  }

  /** The section has not come to its end within its first `k` steps. */
  ghost predicate Unfinished<L>(prog: Program<L>, op: Op, s: PoolState, k: nat) {
    forall i: nat :: i < k ==> prog.result(At(prog, op, s, i).local).None?
  }

  ghost predicate AgreeOn(m: Mem, m': Mem, fp: set<nat>) {
    |m'| == |m| && forall q :: q in fp && q < |m| ==> m'[q] == m[q]
  }

  /** The step from `c` does the same with memory `m` in place of its own. */
  ghost predicate SameMove<L>(prog: Program<L>, c: Conf<L>, m: Mem, fp: set<nat>) {
    var a, b := prog.step(c), prog.step(c.(sh := c.sh.(mem := m)));
    && b.local == a.local && b.sh.free == a.sh.free
    && AgreeOn(a.sh.mem, b.sh.mem, fp) && SameOutside(m, b.sh.mem, fp)
  }

  /** The step from `c` depends on no page outside `fp` and changes none. */
  ghost predicate Framed<L>(prog: Program<L>, c: Conf<L>, fp: set<nat>) {
    forall m :: AgreeOn(c.sh.mem, m, fp) ==> SameMove(prog, c, m, fp)
  }

  /** What a finished section has done, from the pool state `s`. */
  ghost predicate Effect(op: Op, s: PoolState, a: Answer, sh: Shared, list: seq<nat>) {
    && sh.free == Head(list)
    && match a
       case Got(p) =>
         op.TakeOp? && Serves(s.list, op.n) && TakeStep(s.mem, s.list, op.n, sh.mem, list) && p == s.list[0]
       case Nothing => op.TakeOp? && Refuses(s.list, op.n) && sh.mem == s.mem && list == s.list
       case Returned => op.GiveOp? && GiveStep(s.mem, s.list, op.p, op.n, sh.mem, list)
  }

  /** When a section may start: the pool of pages `[lo, hi)` is in order, and what is given back is held. */
  ghost predicate Startable<L>(prog: Program<L>, op: Op, s: PoolState, lo: nat, hi: nat) {
    prog.allows(op) && Accounted(s, lo, hi) && 1 <= lo && OpPages(op) <= s.held
  }

  ghost predicate Correct<L>(prog: Program<L>, op: Op, s: PoolState, k: nat) {
    var c := At(prog, op, s, k);
    match prog.result(c.local)
    case None => Framed(prog, c, Footprint(op, s))
    case Some(a) => exists list :: Effect(op, s, a, c.sh, list)
  }

  /** The code run by one hart with nobody else around: every step keeps to the free pages and those
      given back, and at the end the section has done what the operation promises. */
  ghost predicate Sound<L(!new)>(prog: Program<L>, lo: nat, hi: nat) {
    forall op, s, k: nat :: Startable(prog, op, s, lo, hi) && Unfinished(prog, op, s, k) ==> Correct(prog, op, s, k)
  }

  // ---- Harts ----

  datatype Hart<L> = Idle | Spinning(op: Op) | Inside(op: Op, local: L)

  /** `order` records the requests in the order in which their sections acquired the lock. */
  datatype World<L> = World(lock: nat, sh: Shared, harts: seq<Hart<L>>, held: seq<set<nat>>, order: seq<Op>)

  /** Hart `h` asks for an operation, swaps 1 into the lock, takes a small step inside its section,
      drops its guard, or writes into pages it holds. */
  datatype Action = Call(h: nat, op: Op) | Swap(h: nat) | Micro(h: nat) | Drop(h: nat) | Touch(h: nat)

  ghost function Gained(op: Op, a: Answer): set<nat> {
    if a.Got? then Elems(Region(a.p, op.n)) else {}
  }

  ghost predicate Next<L>(prog: Program<L>, w: World<L>, a: Action, w': World<L>) {
    && a.h < |w.harts| == |w.held|
    && var hart := w.harts[a.h];
    match a
    case Call(h, op) =>
      && hart.Idle? && prog.allows(op) && OpPages(op) <= w.held[h]
      && w' == w.(harts := w.harts[h := Spinning(op)], held := w.held[h := w.held[h] - OpPages(op)])
    case Swap(h) =>
      && hart.Spinning?
      && w' == if w.lock == 1 then w.(lock := 1)
               else w.(lock := 1, harts := w.harts[h := Inside(hart.op, prog.enter(hart.op))], order := w.order + [hart.op])
    case Micro(h) =>
      && hart.Inside? && prog.result(hart.local).None?
      && var c := prog.step(Conf(hart.local, w.sh));
      w' == w.(sh := c.sh, harts := w.harts[h := Inside(hart.op, c.local)])
    case Drop(h) =>
      && hart.Inside? && prog.result(hart.local).Some?
      && var gained := Gained(hart.op, prog.result(hart.local).value);
      w' == w.(lock := 0, harts := w.harts[h := Idle], held := w.held[h := w.held[h] + gained])
    case Touch(h) =>
      && SameOutside(w.sh.mem, w'.sh.mem, w.held[h])
      && w' == w.(sh := w.sh.(mem := w'.sh.mem))
  }

  /** Harts start outside and hold nothing, the lock is free, and the pool is fresh. */
  ghost predicate Init<L>(w: World<L>, s: PoolState, lo: nat, hi: nat) {
    && w.lock == 0 && |w.harts| == |w.held| && w.order == []
    && (forall h :: 0 <= h < |w.harts| ==> w.harts[h].Idle? && w.held[h] == {})
    && 1 <= lo && Fresh(s, lo, hi) && w.sh == Shared(s.mem, Head(s.list))
  }

  ghost predicate Execution<L>(prog: Program<L>, ws: seq<World<L>>, acts: seq<Action>) {
    && |ws| == |acts| + 1
    && forall i :: 0 <= i < |acts| ==> Next(prog, ws[i], acts[i], ws[i + 1])
  }

  // ---- Mutual exclusion ----

  predicate IsInside<L(!new)>(w: World<L>, h: nat) {
    h < |w.harts| && w.harts[h].Inside?
  }

  ghost predicate Exclusive<L(!new)>(w: World<L>) {
    && (w.lock == 0 || w.lock == 1)
    && (forall g: nat, h: nat :: IsInside(w, g) && IsInside(w, h) ==> g == h)
    && (w.lock == 1 <==> exists h: nat :: IsInside(w, h))
  }

  /** At most one hart holds the guard, and the lock word is 1 exactly when one does. */
  lemma StepExclusive<L(!new)>(prog: Program<L>, w: World<L>, a: Action, w': World<L>)
    requires Exclusive(w) && Next(prog, w, a, w')
    ensures Exclusive(w')
  {
    forall g: nat | g != a.h ensures IsInside(w', g) <==> IsInside(w, g) {
    }
    match a
    case Call(h, _) =>
      assert !IsInside(w, h) && !IsInside(w', h);
    case Swap(h) =>
      assert !IsInside(w, h);
      if w.lock == 1 {
        assert w' == w;
      } else {
        assert IsInside(w', h);
      }
    case Micro(h) =>
      assert IsInside(w, h) && IsInside(w', h);
    case Drop(h) =>
      assert IsInside(w, h) && !IsInside(w', h);
    case Touch(h) =>
      assert IsInside(w, h) <==> IsInside(w', h);
  }

  lemma {:induction false} MutualExclusion<L(!new)>(prog: Program<L>, ws: seq<World<L>>, acts: seq<Action>, k: nat)
    requires Execution(prog, ws, acts) && k < |ws| && Exclusive(ws[0])
    ensures Exclusive(ws[k])
  {
    if k > 0 {
      MutualExclusion(prog, ws, acts, k - 1);
      StepExclusive(prog, ws[k - 1], acts[k - 1], ws[k]);
    }
  }

  // ---- Linearisation ----

  /** The pages hart `h` is answerable for: those it holds, and those it is giving back. */
  ghost function Pending<L(!new)>(hart: Hart<L>): set<nat> {
    if hart.Idle? then {} else OpPages(hart.op)
  }

  ghost function Share<L(!new)>(w: World<L>, h: nat): set<nat>
    requires h < |w.harts| == |w.held|
  {
    w.held[h] + Pending(w.harts[h])
  }

  /** The pages out of the pool, `all`, are shared out among the harts, each page to one hart. */
  ghost predicate SharedOut<L(!new)>(w: World<L>, all: set<nat>) {
    && |w.harts| == |w.held|
    && (forall h :: 0 <= h < |w.harts| ==> w.held[h] !! Pending(w.harts[h]) && Share(w, h) <= all)
    && (forall g, h :: 0 <= g < |w.harts| && 0 <= h < |w.harts| && g != h ==> Share(w, g) !! Share(w, h))
    && (forall q :: q in all ==> exists h :: 0 <= h < |w.harts| && q in Share(w, h))
  }

  /** Hart `h` is where its section, run from `s` on its own, is after `k` steps. */
  ghost predicate InSection<L(!new)>(prog: Program<L>, w: World<L>, h: nat, s: PoolState, k: nat)
    requires IsInside(w, h)
  {
    var hart := w.harts[h];
    Unfinished(prog, hart.op, s, k) && At(prog, hart.op, s, k) == Conf(hart.local, w.sh)
  }

  ghost predicate Asked<L(!new)>(prog: Program<L>, w: World<L>) {
    && (forall h :: 0 <= h < |w.harts| && !w.harts[h].Idle? ==> prog.allows(w.harts[h].op))
    && (forall h: nat :: IsInside(w, h) ==> w.order != [] && w.order[|w.order| - 1] == w.harts[h].op)
  }

  /** The shared state is that of the sequential pool `s`, or of a section under way from it. */
  ghost predicate Follows<L(!new)>(prog: Program<L>, w: World<L>, s: PoolState) {
    if w.lock == 0 then w.sh == Shared(s.mem, Head(s.list))
    else forall h: nat :: IsInside(w, h) ==> exists k: nat :: InSection(prog, w, h, s, k)
  }

  ghost predicate Tied<L(!new)>(prog: Program<L>, w: World<L>, s: PoolState, lo: nat, hi: nat) {
    && Exclusive(w) && Accounted(s, lo, hi) && 1 <= lo
    && SharedOut(w, s.held) && Asked(prog, w) && Follows(prog, w, s)
  }

  /** The requests whose sections are complete, in the order of acquisition. */
  function Completed<L>(w: World<L>): seq<Op> {
    if w.lock == 0 || w.order == [] then w.order else w.order[..|w.order| - 1]
  }

  function OpOf(e: Event): seq<Op> {
    match e
    case Take(n) => [TakeOp(n)]
    case Refuse(n) => [TakeOp(n)]
    case Give(p, n) => [GiveOp(p, n)]
    case Write => []
  }

  function OpsOf(es: seq<Event>): seq<Op> {
    if es == [] then [] else OpsOf(es[..|es| - 1]) + OpOf(es[|es| - 1])
  }

  ghost predicate Matches<L(!new)>(prog: Program<L>, w: World<L>, s: PoolState, e: Event, w': World<L>,
                                   s': PoolState, lo: nat, hi: nat) {
    Tied(prog, w', s', lo, hi) && Step(s, e, s') && Completed(w') == Completed(w) + OpOf(e)
  }

  /** Memory `m` with the pages of `pages` taken from `x`. */
  ghost function Patch(m: Mem, x: Mem, pages: set<nat>): (r: Mem)
    requires |x| == |m|
    ensures |r| == |m| && forall q :: 0 <= q < |m| ==> r[q] == if q in pages then x[q] else m[q]
  {
    seq(|m|, q requires 0 <= q < |m| => if q in pages then x[q] else m[q])
  }

  /** A section does not notice, and does not undo, writes to pages outside its footprint. */
  lemma {:induction false} SectionFrame<L(!new)>(prog: Program<L>, op: Op, s: PoolState, x: Mem, pages: set<nat>,
                                                 k: nat, lo: nat, hi: nat)
    requires Sound(prog, lo, hi) && Startable(prog, op, s, lo, hi) && Unfinished(prog, op, s, k)
    requires |x| == |s.mem| && pages !! Footprint(op, s)
    ensures var c, c' := At(prog, op, s, k), At(prog, op, s.(mem := Patch(s.mem, x, pages)), k);
      |c.sh.mem| == |x| && c' == c.(sh := c.sh.(mem := Patch(c.sh.mem, x, pages)))
  {
    if k > 0 {
      SectionFrame(prog, op, s, x, pages, k - 1, lo, hi);
      var c := At(prog, op, s, k - 1);
      var fp := Footprint(op, s);
      assert Unfinished(prog, op, s, k - 1) && Correct(prog, op, s, k - 1);
      assert Framed(prog, c, fp);
      var m := Patch(c.sh.mem, x, pages);
      assert AgreeOn(c.sh.mem, m, fp) && AgreeOn(c.sh.mem, c.sh.mem, fp);
      assert SameMove(prog, c, m, fp) && SameMove(prog, c, c.sh.mem, fp);
      var a, b := prog.step(c), prog.step(c.(sh := c.sh.(mem := m)));
      assert c.(sh := c.sh.(mem := c.sh.mem)) == c;
      assert b.sh.mem == Patch(a.sh.mem, x, pages);
    }
  }

  /** Fewer steps have not come to the end either, whoever writes elsewhere. */
  lemma UnfinishedFrame<L(!new)>(prog: Program<L>, op: Op, s: PoolState, x: Mem, pages: set<nat>, k: nat, lo: nat, hi: nat)
    requires Sound(prog, lo, hi) && Startable(prog, op, s, lo, hi) && Unfinished(prog, op, s, k)
    requires |x| == |s.mem| && pages !! Footprint(op, s)
    ensures Unfinished(prog, op, s.(mem := Patch(s.mem, x, pages)), k)
  {
    forall i: nat | i < k ensures prog.result(At(prog, op, s.(mem := Patch(s.mem, x, pages)), i).local).None? {
      assert Unfinished(prog, op, s, i);
      SectionFrame(prog, op, s, x, pages, i, lo, hi);
    }
  }

  // ---- One action at a time ----

  lemma CallTied<L(!new)>(prog: Program<L>, w: World<L>, a: Action, w': World<L>, s: PoolState, lo: nat, hi: nat)
    requires Tied(prog, w, s, lo, hi) && Next(prog, w, a, w') && a.Call?
    ensures Tied(prog, w', s, lo, hi) && Completed(w') == Completed(w)
  {
    StepExclusive(prog, w, a, w');
    forall g | 0 <= g < |w.harts| ensures Share(w', g) == Share(w, g) {
    }
    forall g: nat | IsInside(w', g) ensures IsInside(w, g) && w.harts[g] == w'.harts[g] {
    }
    KeepFollowing(prog, w, w', s);
  }

  /** Sections are where they were if shared state and the hart inside are. */
  lemma KeepFollowing<L(!new)>(prog: Program<L>, w: World<L>, w': World<L>, s: PoolState)
    requires Follows(prog, w, s) && w'.lock == w.lock && w'.sh == w.sh
    requires forall g: nat :: IsInside(w', g) ==> IsInside(w, g) && w.harts[g] == w'.harts[g]
    ensures Follows(prog, w', s)
  {
    if w.lock != 0 {
      forall h: nat | IsInside(w', h) ensures exists k: nat :: InSection(prog, w', h, s, k) {
        var k: nat :| InSection(prog, w, h, s, k);
        assert InSection(prog, w', h, s, k);
      }
    }
  }

  lemma SwapTied<L(!new)>(prog: Program<L>, w: World<L>, a: Action, w': World<L>, s: PoolState, lo: nat, hi: nat)
    requires Tied(prog, w, s, lo, hi) && Next(prog, w, a, w') && a.Swap?
    ensures Tied(prog, w', s, lo, hi) && Completed(w') == Completed(w)
  {
    StepExclusive(prog, w, a, w');
    if w.lock == 1 {
      assert w' == w;
    } else {
      assert forall g: nat :: IsInside(w', g) ==> g == a.h by {
        assert IsInside(w', a.h);
      }
      forall g | 0 <= g < |w.harts| ensures Share(w', g) == Share(w, g) {
      }
      assert InSection(prog, w', a.h, s, 0);
    }
  }

  lemma MicroTied<L(!new)>(prog: Program<L>, w: World<L>, a: Action, w': World<L>, s: PoolState, lo: nat, hi: nat)
    requires Tied(prog, w, s, lo, hi) && Next(prog, w, a, w') && a.Micro?
    ensures Tied(prog, w', s, lo, hi) && Completed(w') == Completed(w)
  {
    StepExclusive(prog, w, a, w');
    assert IsInside(w, a.h) && IsInside(w', a.h);
    forall g | 0 <= g < |w.harts| ensures Share(w', g) == Share(w, g) {
    }
    var k: nat :| InSection(prog, w, a.h, s, k);
    assert InSection(prog, w', a.h, s, k + 1);
  }

  /** A write to pages no section deals with, while a section is under way. */
  lemma TouchSection<L(!new)>(prog: Program<L>, w: World<L>, pages: set<nat>, x: Mem, s: PoolState, lo: nat, hi: nat)
    returns (m: Mem)
    requires Sound(prog, lo, hi) && Tied(prog, w, s, lo, hi) && w.lock == 1 && SameOutside(w.sh.mem, x, pages)
    requires exists h :: 0 <= h < |w.harts| && pages == w.held[h]
    ensures SameOutside(s.mem, m, pages)
    ensures Follows(prog, w.(sh := w.sh.(mem := x)), s.(mem := m))
  {
    var h: nat :| IsInside(w, h);
    var k: nat :| InSection(prog, w, h, s, k);
    var op := w.harts[h].op;
    var g :| 0 <= g < |w.harts| && pages == w.held[g];
    assert OpPages(op) <= Share(w, h) && pages <= Share(w, g);
    assert pages !! Footprint(op, s);
    SectionLength(prog, op, s, k, lo, hi);
    m := Patch(s.mem, x, pages);
    SectionFrame(prog, op, s, x, pages, k, lo, hi);
    UnfinishedFrame(prog, op, s, x, pages, k, lo, hi);
    assert Patch(w.sh.mem, x, pages) == x;
    var w' := w.(sh := w.sh.(mem := x));
    forall f: nat | IsInside(w', f) ensures exists k: nat :: InSection(prog, w', f, s.(mem := m), k) {
      assert IsInside(w, f);
      assert InSection(prog, w', f, s.(mem := m), k);
    }
  }

  lemma TouchTied<L(!new)>(prog: Program<L>, w: World<L>, a: Action, w': World<L>, s: PoolState, lo: nat, hi: nat)
    returns (s': PoolState)
    requires Sound(prog, lo, hi) && Tied(prog, w, s, lo, hi) && Next(prog, w, a, w') && a.Touch?
    ensures Matches(prog, w, s, Write, w', s', lo, hi)
  {
    StepExclusive(prog, w, a, w');
    var pages, x := w.held[a.h], w'.sh.mem;
    assert pages <= Share(w, a.h);
    forall g | 0 <= g < |w.harts| ensures Share(w', g) == Share(w, g) {
    }
    if w.lock == 0 {
      s' := s.(mem := x);
    } else {
      var m := TouchSection(prog, w, pages, x, s, lo, hi);
      s' := s.(mem := m);
    }
    assert Step(s, Write, s');
    StepAccounted(s, Write, s', lo, hi);
  }

  lemma {:induction false} SectionLength<L(!new)>(prog: Program<L>, op: Op, s: PoolState, k: nat, lo: nat, hi: nat)
    requires Sound(prog, lo, hi) && Startable(prog, op, s, lo, hi) && Unfinished(prog, op, s, k)
    ensures |At(prog, op, s, k).sh.mem| == |s.mem|
  {
    SectionFrame(prog, op, s, s.mem, {}, k, lo, hi);
  }

  /** The event a finished section amounts to. */
  function EventOf(op: Op, a: Answer): Event {
    match op
    case TakeOp(n) => if a.Got? then Take(n) else Refuse(n)
    case GiveOp(p, n) => Give(p, n)
  }

  lemma DropTied<L(!new)>(prog: Program<L>, w: World<L>, a: Action, w': World<L>, s: PoolState, lo: nat, hi: nat)
    returns (e: Event, s': PoolState)
    requires Sound(prog, lo, hi) && Tied(prog, w, s, lo, hi) && Next(prog, w, a, w') && a.Drop?
    ensures Matches(prog, w, s, e, w', s', lo, hi)
  {
    StepExclusive(prog, w, a, w');
    var h := a.h;
    assert IsInside(w, h);
    var k: nat :| InSection(prog, w, h, s, k);
    var op := w.harts[h].op;
    var answer := prog.result(w.harts[h].local).value;
    assert OpPages(op) <= Share(w, h);
    assert Startable(prog, op, s, lo, hi) && Correct(prog, op, s, k);
    var list :| Effect(op, s, answer, w.sh, list);
    e := EventOf(op, answer);
    s' := PoolState(w.sh.mem, list, s.held - OpPages(op) + Gained(op, answer));
    assert Step(s, e, s');
    StepAccounted(s, e, s', lo, hi);
    GainedFresh(op, s, answer, w.sh, list, lo, hi);
    ShareOut(w, h, OpPages(op), Gained(op, answer), w', s.held);
    assert Completed(w') == Completed(w) + [op];
  }

  lemma GainedFresh(op: Op, s: PoolState, a: Answer, sh: Shared, list: seq<nat>, lo: nat, hi: nat)
    requires Accounted(s, lo, hi) && Effect(op, s, a, sh, list)
    ensures Gained(op, a) !! s.held
  {
    if a.Got? {
      TakenElems(s.list, op.n);
    }
  }

  /** Hart `h` loses what it gave back and gains what it was given. */
  lemma ShareOut<L(!new)>(w: World<L>, h: nat, lost: set<nat>, gained: set<nat>, w': World<L>, all: set<nat>)
    requires SharedOut(w, all) && h < |w.harts| && Pending(w.harts[h]) == lost && gained !! all
    requires w'.harts == w.harts[h := Idle] && w'.held == w.held[h := w.held[h] + gained]
    ensures SharedOut(w', all - lost + gained)
  {
    assert Share(w', h) == Share(w, h) - lost + gained;
    forall g | 0 <= g < |w.harts| && g != h ensures Share(w', g) == Share(w, g) && Share(w, g) !! lost {
      assert lost <= Share(w, h);
    }
    forall q | q in all - lost + gained ensures exists g :: 0 <= g < |w'.harts| && q in Share(w', g) {
      if q in gained {
        assert q in Share(w', h);
      } else {
        var g :| 0 <= g < |w.harts| && q in Share(w, g);
        assert q in Share(w', g);
      }
    }
  }

  // ---- Whole executions ----

  /** A sequential run of the pool that an execution amounts to. */
  ghost predicate Linearised<L(!new)>(prog: Program<L>, w: World<L>, ss: seq<PoolState>, es: seq<Event>, lo: nat, hi: nat) {
    && Run(ss, es) && Fresh(ss[0], lo, hi)
    && Tied(prog, w, ss[|es|], lo, hi) && OpsOf(es) == Completed(w)
  }

  lemma Extend<L(!new)>(prog: Program<L>, w: World<L>, ss: seq<PoolState>, es: seq<Event>, e: Event, w': World<L>,
                        s': PoolState, lo: nat, hi: nat)
    requires Linearised(prog, w, ss, es, lo, hi) && Matches(prog, w, ss[|es|], e, w', s', lo, hi)
    ensures Linearised(prog, w', ss + [s'], es + [e], lo, hi)
  {
    assert (es + [e])[..|es|] == es;
    var ss', es' := ss + [s'], es + [e];
    forall i | 0 <= i < |es'| ensures Step(ss'[i], es'[i], ss'[i + 1]) {
      if i < |es| {
        assert Step(ss[i], es[i], ss[i + 1]);
      }
    }
  }

  lemma InitTied<L(!new)>(prog: Program<L>, w: World<L>, s: PoolState, lo: nat, hi: nat)
    requires Init(w, s, lo, hi)
    ensures Linearised(prog, w, [s], [], lo, hi)
  {
    assert Accounted(s, lo, hi);
  }

  lemma LineariseStep<L(!new)>(prog: Program<L>, w: World<L>, a: Action, w': World<L>, ss0: seq<PoolState>,
                               es0: seq<Event>, lo: nat, hi: nat)
    returns (ss: seq<PoolState>, es: seq<Event>)
    requires Sound(prog, lo, hi) && Linearised(prog, w, ss0, es0, lo, hi) && Next(prog, w, a, w')
    ensures ss != [] && ss[0] == ss0[0] && Linearised(prog, w', ss, es, lo, hi)
  {
    var s := ss0[|es0|];
    match a
    case Touch(_) =>
      var s' := TouchTied(prog, w, a, w', s, lo, hi);
      Extend(prog, w, ss0, es0, Write, w', s', lo, hi);
      ss, es := ss0 + [s'], es0 + [Write];
    case Drop(_) =>
      var e, s' := DropTied(prog, w, a, w', s, lo, hi);
      Extend(prog, w, ss0, es0, e, w', s', lo, hi);
      ss, es := ss0 + [s'], es0 + [e];
    case Call(_, _) =>
      CallTied(prog, w, a, w', s, lo, hi);
      ss, es := ss0, es0;
    case Swap(_) =>
      SwapTied(prog, w, a, w', s, lo, hi);
      ss, es := ss0, es0;
    case Micro(_) =>
      MicroTied(prog, w, a, w', s, lo, hi);
      ss, es := ss0, es0;
  }

  /** Every execution, however the harts interleave, amounts to a sequential run of the pool: its
      operations are the completed sections in the order in which they acquired the lock; when the
      lock is free, memory and the head of the free list are those of the sequential run; and the
      pages out of the pool are shared out among the harts, no page to two. */
  lemma {:induction false} Linearise<L(!new)>(prog: Program<L>, ws: seq<World<L>>, acts: seq<Action>,
                                              s0: PoolState, lo: nat, hi: nat, k: nat)
    returns (ss: seq<PoolState>, es: seq<Event>)
    requires Sound(prog, lo, hi) && Execution(prog, ws, acts) && Init(ws[0], s0, lo, hi) && k < |ws|
    ensures ss != [] && ss[0] == s0 && Linearised(prog, ws[k], ss, es, lo, hi)
  {
    if k == 0 {
      ss, es := [s0], [];
      InitTied(prog, ws[0], s0, lo, hi);
      return;
    }
    var ss0, es0 := Linearise(prog, ws, acts, s0, lo, hi, k - 1);
    ss, es := LineariseStep(prog, ws[k - 1], acts[k - 1], ws[k], ss0, es0, lo, hi);
  }

  /** In every state of every execution no page is held by two harts, and none is held and free. */
  lemma NoPageTwice<L(!new)>(prog: Program<L>, ws: seq<World<L>>, acts: seq<Action>, s0: PoolState, lo: nat,
                             hi: nat, k: nat, g: nat, h: nat)
    requires Sound(prog, lo, hi) && Execution(prog, ws, acts) && Init(ws[0], s0, lo, hi) && k < |ws|
    requires g < |ws[k].held| && h < |ws[k].held| && g != h
    ensures ws[k].held[g] !! ws[k].held[h]
    ensures ws[k].lock == 0 ==>
      exists list ::
        Sorted(list) && Linked(ws[k].sh.mem, list) && ws[k].sh.free == Head(list) && ws[k].held[g] !! Elems(list)
  {
    var ss, es := Linearise(prog, ws, acts, s0, lo, hi, k);
    var w, s := ws[k], ss[|es|];
    assert w.held[g] <= Share(w, g) && w.held[h] <= Share(w, h);
    if w.lock == 0 {
      assert Sorted(s.list) && Linked(w.sh.mem, s.list) && w.sh.free == Head(s.list) && w.held[g] !! Elems(s.list);
    }
  }

  // ---- Progress ----

  /** Hart `h` alone inside its section for `op`, `i` steps after it has entered from world `w`. */
  ghost function Within<L(!new)>(prog: Program<L>, w: World<L>, h: nat, op: Op, s: PoolState, i: nat): World<L>
    requires h < |w.harts|
  {
    var c := At(prog, op, s, i);
    w.(lock := 1, sh := c.sh, harts := w.harts[h := Inside(op, c.local)], order := w.order + [op])
  }

  /** World `w` after hart `h` has done `op` on its own, in `e` steps. */
  ghost function Through<L(!new)>(prog: Program<L>, w: World<L>, h: nat, op: Op, s: PoolState, e: nat): World<L>
    requires h < |w.harts| == |w.held| && prog.result(At(prog, op, s, e).local).Some?
  {
    var a := prog.result(At(prog, op, s, e).local).value;
    w.(sh := At(prog, op, s, e).sh, harts := w.harts[h := Idle], order := w.order + [op],
       held := w.held[h := w.held[h] + Gained(op, a)])
  }

  /** A hart that spins on a free lock and is left alone gets it, goes through its section and drops the lock:
      its swap succeeds, each of its steps is enabled, and so is the drop at the end. */
  lemma Passes<L(!new)>(prog: Program<L>, w: World<L>, h: nat, s: PoolState, e: nat)
    returns (ws: seq<World<L>>, acts: seq<Action>)
    requires h < |w.harts| == |w.held| && w.harts[h].Spinning? && w.lock == 0 && w.sh == Shared(s.mem, Head(s.list))
    requires Unfinished(prog, w.harts[h].op, s, e) && prog.result(At(prog, w.harts[h].op, s, e).local).Some?
    ensures Execution(prog, ws, acts) && ws[0] == w && ws[|acts|] == Through(prog, w, h, w.harts[h].op, s, e)
    ensures forall i :: 0 <= i < |acts| ==> acts[i] == if i == 0 then Swap(h) else if i <= e then Micro(h) else Drop(h)
  {
    var op := w.harts[h].op;
    ws := seq(e + 3, i requires 0 <= i =>
      if i == 0 then w else if i <= e + 1 then Within(prog, w, h, op, s, i - 1) else Through(prog, w, h, op, s, e));
    acts := seq(e + 2, i requires 0 <= i => if i == 0 then Swap(h) else if i <= e then Micro(h) else Drop(h));
    forall i | 0 <= i < |acts| ensures Next(prog, ws[i], acts[i], ws[i + 1]) {
      if i == 0 {
        assert At(prog, op, s, 0) == Start(prog, op, s);
      } else if i <= e {
        StepWithin(prog, w, h, op, s, i - 1);
      } else {
        DropWithin(prog, w, h, op, s, e);
      }
    }
  }

  lemma StepWithin<L(!new)>(prog: Program<L>, w: World<L>, h: nat, op: Op, s: PoolState, i: nat)
    requires h < |w.harts| == |w.held| && prog.result(At(prog, op, s, i).local).None?
    ensures Next(prog, Within(prog, w, h, op, s, i), Micro(h), Within(prog, w, h, op, s, i + 1))
  {
    var c, c' := At(prog, op, s, i), At(prog, op, s, i + 1);
    assert w.harts[h := Inside(op, c.local)][h := Inside(op, c'.local)] == w.harts[h := Inside(op, c'.local)];
  }

  lemma DropWithin<L(!new)>(prog: Program<L>, w: World<L>, h: nat, op: Op, s: PoolState, e: nat)
    requires h < |w.harts| == |w.held| && w.lock == 0 && prog.result(At(prog, op, s, e).local).Some?
    ensures Next(prog, Within(prog, w, h, op, s, e), Drop(h), Through(prog, w, h, op, s, e))
  {
    var c := At(prog, op, s, e);
    assert w.harts[h := Inside(op, c.local)][h := Idle] == w.harts[h := Idle];
  }
}
