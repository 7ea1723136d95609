/** Building page tables: `walk` finds or makes the tables on the way to a leaf entry, which
    `page_map` then fills in. */
module PageWalk {
  import opened Bits
  import opened Memory
  import opened FreeList
  import opened PagePool
  import opened PageTable

  // ---- What each write does to the tree ----

  /** Every leaf entry of `t'` in `m'` is what it was of `t` in `m`. */
  ghost predicate SameLeaves(m: Mem, t: Tree, m': Mem, t': Tree)
    requires InMemory(m, t) && InMemory(m', t')
  {
    forall v: nat :: Leaf(m', t', v) == Leaf(m, t, v)
  }

  lemma TreeFrame(m: Mem, m': Mem, t: Tree, s: set<nat>)
    requires TreeOk(m, t) && SameOutside(m, m', s) && TreePages(t) !! s
    ensures TreeOk(m', t) && SameLeaves(m, t, m', t)
  {
    assert t.root in TreePages(t);
    assert forall i :: i in t.mid ==> t.mid[i] in TreePages(t);
    assert forall k :: k in t.low ==> t.low[k] in TreePages(t);
    forall i | 0 <= i < 512 ensures RootEntry(m', t, i) {
      assert RootEntry(m, t, i);
    }
    forall k | k >= 0 && k / 512 in t.mid ensures MidEntry(m', t, k) {
      assert MidEntry(m, t, k);
    }
  }

  lemma AddMidShape(m: Mem, t: Tree, i: nat, g: nat)
    requires TreeOk(m, t) && i < 512 && i !in t.mid && g < |m| && g !in TreePages(t)
    ensures var t' := t.(mid := t.mid[i := g]); NoSharing(t') && InMemory(m, t')
  {
    AddValue(t.mid, i, g);
    assert forall k :: k in t.mid ==> t.mid[k] in t.mid.Values;
  }

  /** A zeroed page outside the tree becomes the level-1 table of region `i`. */
  lemma AddMid(m: Mem, t: Tree, i: nat, g: nat)
    requires TreeOk(m, t) && i < 512 && i !in t.mid && g < |m| && m[g] == ZeroPage() && g !in TreePages(t)
    ensures var m', t' := Put(m, t.root, i, 1024 * g + 1), t.(mid := t.mid[i := g]);
      TreeOk(m', t') && SameLeaves(m, t, m', t')
  {
    var m', t' := Put(m, t.root, i, 1024 * g + 1), t.(mid := t.mid[i := g]);
    AddMidShape(m, t, i, g);
    AddMidLeaves(m, t, i, g);
    forall j | 0 <= j < 512 ensures RootEntry(m', t', j) {
      assert RootEntry(m, t, j);
    }
    forall k | k >= 0 && k / 512 in t'.mid ensures MidEntry(m', t', k) {
      AddMidEntry(m, t, i, g, k);
    }
  }

  lemma AddMidLeaves(m: Mem, t: Tree, i: nat, g: nat)
    requires TreeOk(m, t) && i < 512 && i !in t.mid && g < |m|
    requires InMemory(m, t.(mid := t.mid[i := g]))
    ensures var m', t' := Put(m, t.root, i, 1024 * g + 1), t.(mid := t.mid[i := g]); SameLeaves(m, t, m', t')
  {
    assert forall k :: k in t.low ==> t.low[k] in t.low.Values;
  }

  lemma AddMidEntry(m: Mem, t: Tree, i: nat, g: nat, k: nat)
    requires TreeOk(m, t) && i < 512 && i !in t.mid && g < |m| && m[g] == ZeroPage() && g !in TreePages(t)
    requires var t' := t.(mid := t.mid[i := g]); InMemory(m, t') && k / 512 in t'.mid
    ensures var m', t' := Put(m, t.root, i, 1024 * g + 1), t.(mid := t.mid[i := g]); MidEntry(m', t', k)
  {
    if k / 512 != i {
      assert MidEntry(m, t, k);
      assert t.mid[k / 512] in t.mid.Values;
    }
  }

  lemma AddValue(f: map<nat, nat>, i: nat, g: nat)
    requires i !in f
    ensures f[i := g].Values == f.Values + {g} && f[i := g].Keys == f.Keys + {i}
  {
    var f' := f[i := g];
    assert f'[i] == g;
    forall x | x in f.Values ensures x in f'.Values {
      var k :| k in f && f[k] == x;
      assert f'[k] == x;
    }
  }

  lemma AddLowShape(m: Mem, t: Tree, k: nat, g: nat)
    requires TreeOk(m, t) && k / 512 in t.mid && k !in t.low && g < |m| && g !in TreePages(t)
    ensures var t' := t.(low := t.low[k := g]); NoSharing(t') && InMemory(m, t')
  {
    AddValue(t.low, k, g);
    assert forall j :: j in t.low ==> t.low[j] in t.low.Values;
  }

  lemma AddLowLeaves(m: Mem, t: Tree, k: nat, g: nat)
    requires TreeOk(m, t) && k / 512 in t.mid && k !in t.low
    requires g < |m| && m[g] == ZeroPage() && g !in TreePages(t)
    ensures var m', t' := Put(m, t.mid[k / 512], k % 512, 1024 * g + 1), t.(low := t.low[k := g]);
      InMemory(m', t') && SameLeaves(m, t, m', t')
  {
    assert t.mid[k / 512] in t.mid.Values;
    assert forall j :: j in t.low ==> t.low[j] in t.low.Values;
  }

  /** A zeroed page outside the tree becomes the level-0 table of region `k`. */
  lemma AddLow(m: Mem, t: Tree, k: nat, g: nat)
    requires TreeOk(m, t) && k / 512 in t.mid && k !in t.low
    requires g < |m| && m[g] == ZeroPage() && g !in TreePages(t)
    ensures var m', t' := Put(m, t.mid[k / 512], k % 512, 1024 * g + 1), t.(low := t.low[k := g]);
      TreeOk(m', t') && SameLeaves(m, t, m', t')
  {
    var a := t.mid[k / 512];
    var m', t' := Put(m, a, k % 512, 1024 * g + 1), t.(low := t.low[k := g]);
    AddLowShape(m, t, k, g);
    AddLowLeaves(m, t, k, g);
    assert a in t.mid.Values;
    forall j | 0 <= j < 512 ensures RootEntry(m', t', j) {
      assert RootEntry(m, t, j);
    }
    forall j | j >= 0 && j / 512 in t'.mid ensures MidEntry(m', t', j) {
      assert MidEntry(m, t, j);
      assert j != k && j / 512 == k / 512 ==> j % 512 != k % 512;
    }
  }

  /** Writing one leaf entry changes that entry alone. */
  lemma SetLeaf(m: Mem, t: Tree, v: nat, pte: nat)
    requires TreeOk(m, t) && v / 512 in t.low
    ensures var m' := Put(m, t.low[v / 512], v % 512, pte);
      TreeOk(m', t) && forall u: nat :: Leaf(m', t, u) == if u == v then pte else Leaf(m, t, u)
  {
    var a := t.low[v / 512];
    var m' := Put(m, a, v % 512, pte);
    assert a in t.low.Values;
    assert forall j :: j in t.mid ==> t.mid[j] in t.mid.Values;
    forall j | 0 <= j < 512 ensures RootEntry(m', t, j) {
      assert RootEntry(m, t, j);
    }
    forall k | k >= 0 && k / 512 in t.mid ensures MidEntry(m', t, k) {
      assert MidEntry(m, t, k);
    }
    forall u: nat ensures Leaf(m', t, u) == if u == v then pte else Leaf(m, t, u) {
      assert u != v && u / 512 == v / 512 ==> u % 512 != v % 512;
    }
  }

  // ---- walk ----

  datatype VmError = OutOfPages | PallocFail

  /** `BadAddress`: the address is not below 2^39, and the assertion at the start of `walk` fails. */
  datatype WalkResult = Found(addr: nat) | Failed(error: VmError) | BadAddress

  /** The tables of `t` are well formed and none of them is free. */
  ghost predicate Owned(pool: Pool, t: Tree)
    reads pool, pool.ram
  {
    pool.Valid() && TreeOk(pool.ram.pages, t) && TreePages(t) !! Elems(pool.list)
  }

  /** There is a table for page `v` at `level`. */
  ghost predicate HasTable(t: Tree, level: nat, v: nat) {
    if level >= 2 then true else if level == 1 then v / 262144 in t.mid else v / 512 in t.low
  }

  ghost function TableOf(t: Tree, level: nat, v: nat): nat
    requires HasTable(t, level, v)
  {
    if level >= 2 then t.root else if level == 1 then t.mid[v / 262144] else t.low[v / 512]
  }

  /** `t` with page `g` as the table below `level` for page `v`. */
  ghost function AddTable(t: Tree, level: nat, v: nat, g: nat): Tree {
    if level == 2 then t.(mid := t.mid[v / 262144 := g]) else t.(low := t.low[v / 512 := g])
  }

  /** `t'` has the tables of `t`, and besides them at most tables for page `v`. */
  ghost predicate Extends(t: Tree, t': Tree, v: nat) {
    && t'.root == t.root
    && (forall i :: i in t.mid ==> i in t'.mid && t'.mid[i] == t.mid[i])
    && (forall k :: k in t.low ==> k in t'.low && t'.low[k] == t.low[k])
    && t'.mid.Keys <= t.mid.Keys + {v / 262144} && t'.low.Keys <= t.low.Keys + {v / 512}
  }

  /** What the entry for page `v` in its table at `level` holds. */
  lemma EntryFor(m: Mem, t: Tree, level: nat, v: nat)
    requires TreeOk(m, t) && 1 <= level <= 2 && v < VPN_TOP && HasTable(t, level, v)
    ensures var pte := m[TableOf(t, level, v)][v / LevelPages(level) % 512];
      pte == if HasTable(t, level - 1, v) then 1024 * TableOf(t, level - 1, v) + 1 else 0
  {
    var i, k := v / 262144, v / 512;
    assert i < 512 && i % 512 == i && k / 512 == i;
    if level == 2 {
      assert RootEntry(m, t, i);
    } else {
      assert MidEntry(m, t, k);
    }
  }

  /** A zeroed page outside the tree becomes the missing table below `level`. */
  lemma AddTableOk(m: Mem, t: Tree, level: nat, v: nat, g: nat)
    requires TreeOk(m, t) && 1 <= level <= 2 && v < VPN_TOP && HasTable(t, level, v) && !HasTable(t, level - 1, v)
    requires g < |m| && m[g] == ZeroPage() && g !in TreePages(t)
    ensures var m', t' := Put(m, TableOf(t, level, v), v / LevelPages(level) % 512, 1024 * g + 1), AddTable(t, level, v, g);
      && TreeOk(m', t') && SameLeaves(m, t, m', t')
  {
    var i, k := v / 262144, v / 512;
    assert i < 512 && i % 512 == i && k / 512 == i;
    if level == 2 {
      AddMid(m, t, i, g);
    } else {
      AddLow(m, t, k, g);
    }
  }

  lemma AddTablePages(t: Tree, level: nat, v: nat, g: nat)
    requires 1 <= level <= 2 && !HasTable(t, level - 1, v)
    ensures var t' := AddTable(t, level, v, g);
      TreePages(t') == TreePages(t) + {g}
  {
    if level == 2 {
      MidPages(t, v / 262144, g);
    } else {
      LowPages(t, v / 512, g);
    }
  }

  lemma MidPages(t: Tree, i: nat, g: nat)
    requires i !in t.mid
    ensures var t' := t.(mid := t.mid[i := g]); TreePages(t') == TreePages(t) + {g}
  {
    AddValue(t.mid, i, g);
  }

  lemma LowPages(t: Tree, k: nat, g: nat)
    requires k !in t.low
    ensures var t' := t.(low := t.low[k := g]); TreePages(t') == TreePages(t) + {g}
  {
    AddValue(t.low, k, g);
  }

  /** A page taken from the pool is zeroed and in no table, and the tables are as they were. */
  lemma FreshForTree(m: Mem, list: seq<nat>, m1: Mem, t: Tree)
    requires TreeOk(m, t) && TreePages(t) !! Elems(list) && Sorted(list) && Linked(m, list) && list != []
    requires TakeStep(m, list, 1, m1, list[1..])
    ensures TreeOk(m1, t) && SameLeaves(m, t, m1, t) && list[0] < |m1| && m1[list[0]] == ZeroPage()
    ensures list[0] !in TreePages(t) && list[0] !in list[1..] && TreePages(t) !! Elems(list[1..])
    ensures Elems(list) == Elems(list[1..]) + {list[0]}
  {
    TreeFrame(m, m1, t, Elems(list));
    assert list[0] in Elems(list);
    assert list == [list[0]] + list[1..];
  }

  /** Tables come out of the pool: the pages of both together stay the same. */
  ghost predicate Conserved(list: seq<nat>, t: Tree, list': seq<nat>, t': Tree) {
    Elems(list') + TreePages(t') == Elems(list) + TreePages(t)
  }

  /** The outcome of going down one level. */
  ghost predicate Descended(list: seq<nat>, t: Tree, level: nat, v: nat, allocNew: bool,
                            r: WalkResult, list': seq<nat>, t': Tree)
    requires 1 <= level
  {
    if HasTable(t, level - 1, v) then
      t' == t && list' == list && r == Found(4096 * TableOf(t, level - 1, v))
    else if allocNew && list != [] then
      t' == AddTable(t, level, v, list[0]) && list' == list[1..] && r == Found(4096 * list[0])
    else
      t' == t && list' == list && r == Failed(if allocNew then VmError.OutOfPages else PallocFail)
  }

  /** A page taken off the pool and entered as the missing table below `level`. */
  lemma EnterTable(m: Mem, list: seq<nat>, m1: Mem, t: Tree, level: nat, v: nat, m': Mem)
    requires TreeOk(m, t) && TreePages(t) !! Elems(list) && Sorted(list) && Linked(m, list) && list != []
    requires TakeStep(m, list, 1, m1, list[1..])
    requires 1 <= level <= 2 && v < VPN_TOP && HasTable(t, level, v) && !HasTable(t, level - 1, v)
    requires TableOf(t, level, v) < |m1|
    requires m' == Put(m1, TableOf(t, level, v), v / LevelPages(level) % 512, 1024 * list[0] + 1)
    ensures var t' := AddTable(t, level, v, list[0]); TreeOk(m', t') && SameLeaves(m, t, m', t')
    ensures Linked(m', list[1..]) && SameOutside(m, m', TreePages(t) + Elems(list))
  {
    FreshForTree(m, list, m1, t);
    AddTableOk(m1, t, level, v, list[0]);
    var a := TableOf(t, level, v);
    assert a in TreePages(t);
    LinkedFrame(m1, m', list[1..], {a});
  }

  lemma EnterPages(list: seq<nat>, t: Tree, level: nat, v: nat)
    requires TreePages(t) !! Elems(list) && Sorted(list) && list != []
    requires 1 <= level <= 2 && !HasTable(t, level - 1, v)
    ensures var t' := AddTable(t, level, v, list[0]);
      TreePages(t') !! Elems(list[1..]) && Conserved(list, t, list[1..], t')
  {
    AddTablePages(t, level, v, list[0]);
    assert list == [list[0]] + list[1..];
    assert Elems(list) == {list[0]} + Elems(list[1..]);
  }

  /** The entry for the table on page `p`: made from its address, valid, and leading back to it. */
  lemma TablePte(p: nat)
    ensures PhyToPte(4096 * p) == 1024 * p && PteSetFlag(1024 * p, PTE_VALID) == 1024 * p + 1
    ensures IsValid(1024 * p + 1) && PteToPhy(1024 * p + 1) == 4096 * p && PteToPhy(1024 * p) == 4096 * p
    ensures !IsValid(0)
  {
    DivUnique(4096 * p, 4096, p, 0);
    DivUnique(1024 * p, 1024, p, 0);
    DivUnique(1024 * p + 1, 1024, p, 1);
    DivUnique(1024 * p + 1, 2, 512 * p, 1);
  }

  /** Takes a page from the pool for the missing table and enters it. */
  method MakeTable(pool: Pool, pteAddr: nat, ghost level: nat, ghost v: nat, ghost t: Tree)
    returns (r: WalkResult, ghost t': Tree)
    requires Owned(pool, t) && 1 <= level <= 2 && v < VPN_TOP && HasTable(t, level, v) && !HasTable(t, level - 1, v)
    requires pteAddr == 4096 * TableOf(t, level, v) + 8 * (v / LevelPages(level) % 512)
    modifies pool, pool.ram
    ensures Owned(pool, t') && SameLeaves(old(pool.ram.pages), t, pool.ram.pages, t')
    ensures Descended(old(pool.list), t, level, v, true, r, pool.list, t')
    ensures SameOutside(old(pool.ram.pages), pool.ram.pages, TreePages(t) + Elems(old(pool.list)))
    ensures Conserved(old(pool.list), t, pool.list, t')
  {
    t' := t;
    var page := pool.Palloc();
    if page.OutOfPages? {
      return Failed(VmError.OutOfPages), t;
    }
    ghost var m1, a, idx := pool.ram.pages, TableOf(t, level, v), v / LevelPages(level) % 512;
    Locate(a, idx);
    TablePte(old(pool.list)[0]);
    var pte := PteSetFlag(PhyToPte(page.addr), PTE_VALID);
    pool.ram.Store(pteAddr, pte);
    EnterTable(old(pool.ram.pages), old(pool.list), m1, t, level, v, pool.ram.pages);
    EnterPages(old(pool.list), t, level, v);
    t' := AddTable(t, level, v, old(pool.list)[0]);
    r := Found(PteToPhy(PhyToPte(page.addr)));
  }

  /** Reads the entry for `va` in the table at `level`. */
  method ReadTable(pool: Pool, table: nat, va: nat, level: nat, ghost t: Tree) returns (pteAddr: nat, pte: nat)
    requires Owned(pool, t) && 1 <= level <= 2 && va < VA_TOP
    requires HasTable(t, level, va / 4096) && table == 4096 * TableOf(t, level, va / 4096)
    ensures pteAddr == table + 8 * (va / 4096 / LevelPages(level) % 512)
    ensures pte == if HasTable(t, level - 1, va / 4096) then 1024 * TableOf(t, level - 1, va / 4096) + 1 else 0
  {
    var idx := Vpn(va, level);
    Locate(TableOf(t, level, va / 4096), idx);
    EntryFor(pool.ram.pages, t, level, va / 4096);
    pteAddr := table + 8 * idx;
    pte := pool.ram.Load(pteAddr);
  }

  /** The table below `level`: found, or made on request. */
  method Descend(pool: Pool, table: nat, va: nat, level: nat, allocNew: bool, ghost t: Tree)
    returns (r: WalkResult, ghost t': Tree)
    requires Owned(pool, t) && 1 <= level <= 2 && va < VA_TOP
    requires HasTable(t, level, va / 4096) && table == 4096 * TableOf(t, level, va / 4096)
    modifies pool, pool.ram
    ensures Owned(pool, t') && SameLeaves(old(pool.ram.pages), t, pool.ram.pages, t')
    ensures Descended(old(pool.list), t, level, va / 4096, allocNew, r, pool.list, t')
    ensures SameOutside(old(pool.ram.pages), pool.ram.pages, TreePages(t) + Elems(old(pool.list)))
    ensures Conserved(old(pool.list), t, pool.list, t')
    ensures !allocNew ==> pool.ram.pages == old(pool.ram.pages)
  {
    var pteAddr, pte := ReadTable(pool, table, va, level, t);
    ghost var has := HasTable(t, level - 1, va / 4096);
    TablePte(if has then TableOf(t, level - 1, va / 4096) else 0);
    if IsValid(pte) {
      r, t' := Found(PteToPhy(pte)), t;
    } else if allocNew {
      r, t' := MakeTable(pool, pteAddr, level, va / 4096, t);
    } else {
      r, t' := Failed(PallocFail), t;
    }
  }

  /** The tables on the way to page `v` above `level` that `t` lacks. */
  ghost function MissingAbove(t: Tree, level: nat, v: nat): nat {
    (if level <= 1 && v / 262144 !in t.mid then 1 else 0) + (if level == 0 && v / 512 !in t.low then 1 else 0)
  }

  /** How far a walk for page `v` has changed memory, the free list and the tree. */
  ghost predicate Grew(m: Mem, list: seq<nat>, t: Tree, v: nat, m': Mem, list': seq<nat>, t': Tree, made: nat)
    requires InMemory(m, t) && InMemory(m', t')
  {
    && SameLeaves(m, t, m', t') && Extends(t, t', v) && Conserved(list, t, list', t')
    && SameOutside(m, m', TreePages(t) + Elems(list))
    && made <= |list| && list' == list[made..]
  }

  lemma ExtendsAdd(t: Tree, t1: Tree, level: nat, v: nat, g: nat)
    requires Extends(t, t1, v) && 1 <= level <= 2 && !HasTable(t1, level - 1, v)
    ensures Extends(t, AddTable(t1, level, v, g), v)
  {
  }

  /** The walk for page `v` has reached `level`. */
  ghost predicate WalkAt(pool: Pool, m: Mem, list: seq<nat>, t: Tree, level: nat, v: nat, t': Tree)
    reads pool, pool.ram
  {
    && Owned(pool, t') && HasTable(t', level, v) && InMemory(m, t)
    && Grew(m, list, t, v, pool.ram.pages, pool.list, t', MissingAbove(t, level, v))
    && (level >= 1 ==> t'.low == t.low) && (level >= 2 ==> t' == t)
  }

  /** One round of the loop of `walk`. */
  method WalkLevel(pool: Pool, table: nat, va: nat, level: nat, allocNew: bool,
                   ghost m: Mem, ghost list: seq<nat>, ghost t: Tree, ghost t1: Tree)
    returns (r: WalkResult, ghost t': Tree)
    requires 1 <= level <= 2 && va < VA_TOP && WalkAt(pool, m, list, t, level, va / 4096, t1)
    requires table == 4096 * TableOf(t1, level, va / 4096)
    modifies pool, pool.ram
    ensures r.Found? ==>
      WalkAt(pool, m, list, t, level - 1, va / 4096, t') && r.addr == 4096 * TableOf(t', level - 1, va / 4096)
    ensures !r.Found? ==>
      && r == Failed(if allocNew then VmError.OutOfPages else PallocFail)
      && t' == t1 && WalkAt(pool, m, list, t, level, va / 4096, t')
    ensures r.Found? <==>
      MissingAbove(t, level - 1, va / 4096) <= if allocNew then |list| else MissingAbove(t, level, va / 4096)
  {
    ghost var m1, list1, v := pool.ram.pages, pool.list, va / 4096;
    r, t' := Descend(pool, table, va, level, allocNew, t1);
    GrewMem(m, list, t, m1, list1, t1, pool.ram.pages, pool.list, t');
    if !HasTable(t1, level - 1, v) && allocNew && list1 != [] {
      ExtendsAdd(t, t1, level, v, list1[0]);
    }
  }

  lemma GrewMem(m: Mem, list: seq<nat>, t: Tree, m1: Mem, list1: seq<nat>, t1: Tree,
                m2: Mem, list2: seq<nat>, t2: Tree)
    requires InMemory(m, t) && InMemory(m1, t1) && InMemory(m2, t2)
    requires SameLeaves(m, t, m1, t1) && SameLeaves(m1, t1, m2, t2)
    requires SameOutside(m, m1, TreePages(t) + Elems(list)) && SameOutside(m1, m2, TreePages(t1) + Elems(list1))
    requires Conserved(list, t, list1, t1) && Conserved(list1, t1, list2, t2)
    ensures SameLeaves(m, t, m2, t2) && SameOutside(m, m2, TreePages(t) + Elems(list)) && Conserved(list, t, list2, t2)
  {
    assert TreePages(t1) + Elems(list1) == TreePages(t) + Elems(list);
  }

  /** `walk`: the address of the leaf entry for `va`, with the tables to it made on request. */
  method Walk(pool: Pool, root: nat, va: nat, allocNew: bool, ghost t: Tree, ghost v: nat)
    returns (r: WalkResult, ghost t': Tree)
    requires Owned(pool, t) && root == 4096 * t.root && 4096 * v <= va < 4096 * v + 4096
    modifies pool, pool.ram
    ensures Owned(pool, t')
    ensures r == BadAddress <==> va >= VA_TOP
    ensures r == BadAddress ==> t' == t && pool.list == old(pool.list) && pool.ram.pages == old(pool.ram.pages)
    ensures r.Found? ==>
      && HasTable(t', 0, v) && r.addr == 4096 * TableOf(t', 0, v) + 8 * (v % 512)
      && Grew(old(pool.ram.pages), old(pool.list), t, v, pool.ram.pages, pool.list, t', MissingAbove(t, 0, v))
    ensures r.Failed? ==>
      && r.error == (if allocNew then VmError.OutOfPages else PallocFail)
      && Grew(old(pool.ram.pages), old(pool.list), t, v, pool.ram.pages, pool.list, t',
              if allocNew then |old(pool.list)| else 0)
    ensures va < VA_TOP ==>
      (r.Found? <==> MissingAbove(t, 0, v) <= if allocNew then |old(pool.list)| else 0)
  {
    t' := t;
    if va >= VA_TOP {
      return BadAddress, t;
    }
    assert v == va / 4096;
    var table := root;
    for level := 3 downto 1
      invariant WalkAt(pool, old(pool.ram.pages), old(pool.list), t, level - 1, v, t')
      invariant table == 4096 * TableOf(t', level - 1, v)
      invariant !allocNew ==> MissingAbove(t, level - 1, v) == 0
    {
      var next;
      next, t' := WalkLevel(pool, table, va, level, allocNew, old(pool.ram.pages), old(pool.list), t, t');
      if !next.Found? {
        return next, t';
      }
      table := next.addr;
    }
    r := Found(table + 8 * Vpn(va, 0));
  }
}
