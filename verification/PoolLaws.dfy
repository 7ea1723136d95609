/** Laws of the page pool over whole runs: what the pool's operations promise about each other.
    The steps are the relations that `PagePool.Pool` proves of its methods. */
module PoolLaws {
  import opened Memory
  import opened FreeList

  /** Taking pages, writing anything into them and giving them back restores the pool exactly:
      the head, every link and every page. */
  lemma RoundTrip(m0: Mem, l0: seq<nat>, n: nat, m1: Mem, l1: seq<nat>, m2: Mem, m3: Mem, l3: seq<nat>)
    requires Sorted(l0) && Linked(m0, l0) && TakeStep(m0, l0, n, m1, l1)
    requires SameOutside(m1, m2, Elems(Region(l0[0], n)))
    requires GiveStep(m2, l1, l0[0], n, m3, l3)
    ensures m3 == m0 && l3 == l0
  {
    TakenElems(l0, n);
    assert l0 == l0[..n] + l0[n..];
    assert Elems(l3) == Elems(l0);
    CanonicalImage(m0, l0, m3, l3);
  }

  lemma TakenElems(list: seq<nat>, n: nat)
    requires 1 <= n && Contiguous(list, n)
    ensures Elems(list) == Elems(list[n..]) + Elems(Region(list[0], n))
  {
    assert list[..n] == Region(list[0], n);
    assert list == list[..n] + list[n..];
  }

  /** Two regions given back in either order leave the same list and the same memory. */
  lemma GiveOrder(m: Mem, list: seq<nat>, p: nat, n: nat, q: nat, k: nat,
                  a1: Mem, la1: seq<nat>, a2: Mem, la2: seq<nat>,
                  b1: Mem, lb1: seq<nat>, b2: Mem, lb2: seq<nat>)
    requires GiveStep(m, list, p, n, a1, la1) && GiveStep(a1, la1, q, k, a2, la2)
    requires GiveStep(m, list, q, k, b1, lb1) && GiveStep(b1, lb1, p, n, b2, lb2)
    ensures la2 == lb2 && a2 == b2
  {
    assert Elems(la2) == Elems(lb2);
    CanonicalImage(a2, la2, b2, lb2);
  }

  // ---- Runs ----

  datatype PoolState = PoolState(mem: Mem, list: seq<nat>, held: set<nat>)

  datatype Event = Take(n: nat) | Refuse(n: nat) | Give(p: nat, n: nat) | Write

  /** Clients ask for pages and get them or not, as the list has it, give back what they hold, and write to nothing else. */
  ghost predicate Step(s: PoolState, e: Event, s': PoolState) {
    match e
    case Take(n) =>
      && Serves(s.list, n) && TakeStep(s.mem, s.list, n, s'.mem, s'.list)
      && s'.held == s.held + Elems(Region(s.list[0], n))
    case Refuse(n) =>
      Refuses(s.list, n) && s' == s
    case Give(p, n) =>
      && Elems(Region(p, n)) <= s.held
      && GiveStep(s.mem, s.list, p, n, s'.mem, s'.list)
      && s'.held == s.held - Elems(Region(p, n))
    case Write =>
      && SameOutside(s.mem, s'.mem, s.held)
      && s'.list == s.list && s'.held == s.held
  }

  ghost predicate Run(states: seq<PoolState>, events: seq<Event>) {
    && |states| == |events| + 1
    && forall i :: 0 <= i < |events| ==> Step(states[i], events[i], states[i + 1])
  }

  /** A fresh pool of the pages `[lo, hi)`. */
  ghost predicate Fresh(s: PoolState, lo: nat, hi: nat) {
    lo <= hi <= |s.mem| && s.list == Region(lo, hi - lo) && Linked(s.mem, s.list) && s.held == {}
  }

  function Pages(lo: nat, hi: nat): set<nat>
    requires lo <= hi
  {
    Elems(Region(lo, hi - lo))
  }

  /** Every page of the pool is free or held, never both, and the free pages are canonical. */
  ghost predicate Accounted(s: PoolState, lo: nat, hi: nat) {
    && lo <= hi <= |s.mem| && Sorted(s.list) && Linked(s.mem, s.list)
    && Elems(s.list) !! s.held
    && Elems(s.list) + s.held == Pages(lo, hi)
  }

  lemma StepAccounted(s: PoolState, e: Event, s': PoolState, lo: nat, hi: nat)
    requires Accounted(s, lo, hi) && Step(s, e, s')
    ensures Accounted(s', lo, hi)
  {
    match e
    case Take(n) =>
      TakenElems(s.list, n);
      RegionElems(s.list[0], n);
      forall q | q in Elems(s.list[n..]) ensures q !in Elems(Region(s.list[0], n)) {
        var i :| 0 <= i < |s.list[n..]| && s.list[n..][i] == q;
        assert s.list[n - 1] < s.list[n + i];
      }
    case Refuse(_) =>
    case Give(p, n) =>
      assert Elems(s'.list) + s'.held == Elems(s.list) + s.held;
    case Write =>
      forall i | 0 <= i < |s.list| ensures LinkedAt(s'.mem, s'.list, i) {
        assert LinkedAt(s.mem, s.list, i);
        assert s.list[i] in Elems(s.list);
      }
  }

  lemma {:induction false} RunAccounted(states: seq<PoolState>, events: seq<Event>, lo: nat, hi: nat, k: nat)
    requires Run(states, events) && Fresh(states[0], lo, hi) && k < |states|
    ensures Accounted(states[k], lo, hi)
  {
    if k != 0 {
      RunAccounted(states, events, lo, hi, k - 1);
      StepAccounted(states[k - 1], events[k - 1], states[k], lo, hi);
    }
  }

  /** Canonical form over runs: whatever two clients did with two pools over the same pages, if
      the same pages are free at the end then the lists are equal and so is every free page. */
  lemma FreeSetDecidesImage(sa: seq<PoolState>, ea: seq<Event>, sb: seq<PoolState>, eb: seq<Event>,
                            lo: nat, hi: nat)
    requires Run(sa, ea) && Fresh(sa[0], lo, hi) && Run(sb, eb) && Fresh(sb[0], lo, hi)
    requires sa[|ea|].held == sb[|eb|].held
    ensures sa[|ea|].list == sb[|eb|].list
    ensures forall q :: q in sa[|ea|].list ==>
      q < |sa[|ea|].mem| && q < |sb[|eb|].mem| && sa[|ea|].mem[q] == sb[|eb|].mem[q]
  {
    var a, b := sa[|ea|], sb[|eb|];
    RunAccounted(sa, ea, lo, hi, |ea|);
    RunAccounted(sb, eb, lo, hi, |eb|);
    assert Elems(a.list) == Pages(lo, hi) - a.held;
    assert Elems(b.list) == Pages(lo, hi) - b.held;
    SortedUnique(a.list, b.list);
    forall q | q in a.list ensures q < |a.mem| && q < |b.mem| && a.mem[q] == b.mem[q] {
      var i :| 0 <= i < |a.list| && a.list[i] == q;
      assert LinkedAt(a.mem, a.list, i) && LinkedAt(b.mem, a.list, i);
    }
  }
}
