/** Physical memory: pages of 512 words of 8 bytes. The word at byte address `a` is word
    `(a % 4096) / 8` of page `a / 4096`. */
module Memory {

  datatype Option<+T> = None | Some(value: T) {
    function GetOr(default: T): T {
      match this
      case Some(v) => v
      case None => default
    }
  }

  const PAGE_SIZE: nat := 4096

  type Page = p: seq<nat> | |p| == 512 witness seq(512, _ => 0)
  type Mem = seq<Page>

  function ZeroPage(): Page {
    seq(512, _ => 0)
  }

  function PageNo(addr: nat): nat {
    addr / 4096
  }

  function Slot(addr: nat): (k: nat)
    ensures k < 512
  {
    addr % 4096 / 8
  }

  /** The byte address of word `k` of page `p`. */
  lemma Locate(p: nat, k: nat)
    requires k < 512
    ensures var addr := 4096 * p + 8 * k; PageNo(addr) == p && Slot(addr) == k && addr % 8 == 0
  {
    var addr := 4096 * p + 8 * k;
    assert addr / 4096 == p && addr % 4096 == 8 * k;
  }

  /** Memory `m` with word `k` of page `p` replaced. */
  function Put(m: Mem, p: nat, k: nat, w: nat): Mem
    requires p < |m| && k < 512
  {
    m[p := m[p][k := w]]
  }

  class Ram {
    var pages: Mem

    constructor (pages: Mem)
      ensures this.pages == pages
    {
      this.pages := pages;
    }

    predicate InRam(addr: nat)
      reads this
    {
      addr % 8 == 0 && PageNo(addr) < |pages|
    }

    function Load(addr: nat): nat
      requires InRam(addr)
      reads this
    {
      pages[PageNo(addr)][Slot(addr)]
    }

    method Store(addr: nat, w: nat)
      requires InRam(addr)
      modifies this
      ensures pages == Put(old(pages), PageNo(addr), Slot(addr), w)
    {
      pages := Put(pages, PageNo(addr), Slot(addr), w);
    }

    /** Zeroes the 512 words from `addr` on. */
    method ZeroPageAt(addr: nat)
      requires addr % PAGE_SIZE == 0 && PageNo(addr) < |pages|
      modifies this
      ensures pages == old(pages)[PageNo(addr) := ZeroPage()]
    {
      pages := pages[PageNo(addr) := ZeroPage()];
    }
  }
}
