/** Packed words of the small allocator: chunk headers and zone words. */
module Headers {
  import opened Bits
  import opened Chunks

  const MAX_CHUNK_SIZE: nat := 4080
  const HEADER_SIZE: nat := 8
  const HEADER_USED: nat := 4096

  /** The number of words a request of `size` bytes is rounded up to. */
  function Words(size: nat): (n: nat)
    ensures size <= 8 * n < size + 8
  {
    (size + 7) / 8
  }

  // ---- Header ----

  function ChunkSize(fields: nat): (r: nat)
    ensures r == fields % 4096
  {
    Pow2Values();
    LowBits(fields, 12);
    And(fields, 0xFFF)
  }

  predicate IsFree(fields: nat)
    ensures IsFree(fields) <==> (fields / 4096) % 2 == 0
  {
    Pow2Values();
    OneBit(fields, 12);
    And(fields, HEADER_USED) == 0
  }

  function SetUsed(fields: nat): (r: nat)
    ensures IsFree(fields) ==> r == fields + 4096
    ensures !IsFree(fields) ==> r == fields
  {
    Pow2Values();
    OneBit(fields, 12);
    Or(fields, HEADER_USED)
  }

  function SetUnused(fields: nat): (r: nat)
    ensures IsFree(fields) ==> r == fields
    ensures !IsFree(fields) ==> r == fields - 4096
  {
    Pow2Values();
    OneBit(fields, 12);
    AndNot(fields, HEADER_USED)
  }

  /** Clears the size bits and ORs the new size in: a size of 4096 or more spills into the
      used bit and beyond. */
  function SetSize(fields: nat, size: nat): (r: nat)
    ensures size < 4096 ==> r == fields - fields % 4096 + size
    ensures fields < 4096 ==> r == size
  {
    Pow2Values();
    HighBits(fields, 12);
    assert (fields - fields % 4096) % 4096 == 0;
    if size < 4096 then OrDisjoint(fields - fields % 4096, size, 12); Or(AndNot(fields, 0xFFF), size)
    else Or(AndNot(fields, 0xFFF), size)
  }

  /** A size of 4096 bytes or more turns the header of a free chunk into that of a used one, whose
      size is what lies above 4096. */
  lemma SizeSpills(c: Chunk, n: nat)
    requires !c.used && c.words <= 510 && 512 <= n < 1024
    ensures SetSize(Hdr(c), 8 * n) == Hdr(Chunk(n - 512, true))
  {
  }

  /** Any header of a free chunk, once its size bits are set: below 4096 it is free with that size, from
      4096 on it is in use. */
  lemma SizeSet(fields: nat, size: nat)
    requires IsFree(fields) && size < 8192
    ensures size < 4096 ==> IsFree(SetSize(fields, size)) && ChunkSize(SetSize(fields, size)) == size
    ensures size >= 4096 ==> !IsFree(SetSize(fields, size))
  {
    var hi := fields - fields % 4096;
    Pow2Values();
    HighBits(fields, 12);
    if size < 4096 {
      DivUnique(hi + size, 4096, hi / 4096, size);
    } else {
      OrShift(hi, size, 12);
      ShiftDivides(Or(hi, size), 12);
      ShiftDivides(hi, 12);
      ShiftDivides(size, 12);
      OrHalf(hi / 4096, size / 4096);
    }
  }

  /** What the header operations do to the header of a chunk that fits a zone. */
  lemma HdrFields(c: Chunk, n: nat)
    requires c.words <= 510 && n <= 510
    ensures ChunkSize(Hdr(c)) == 8 * c.words && (IsFree(Hdr(c)) <==> !c.used)
    ensures SetUsed(Hdr(c)) == Hdr(Chunk(c.words, true))
    ensures SetUnused(Hdr(c)) == Hdr(Chunk(c.words, false))
    ensures SetSize(Hdr(c), 8 * n) == Hdr(Chunk(n, c.used))
  {
  }

  // ---- Zone word ----

  function GetRefs(next: nat): (r: nat)
    ensures r == next % 4096
  {
    Pow2Values();
    LowBits(next, 12);
    And(next, 4095)
  }

  /** The next zone's address, 0 for none. */
  function GetNext(next: nat): (r: nat)
    ensures r == next - next % 4096 && r % 4096 == 0
  {
    Pow2Values();
    HighBits(next, 12);
    AndNot(next, 4095)
  }

  /** The zone word from an address and a count that share no bit. */
  function PackZone(addr: nat, refs: nat): (r: nat)
    ensures addr % 4096 == 0 && refs < 4096 ==> r == addr + refs
  {
    Pow2Values();
    if addr % 4096 == 0 && refs < 4096 then OrDisjoint(addr, refs, 12); Or(addr, refs)
    else Or(addr, refs)
  }

  /** Counts below 4096 survive packing, and do not disturb the address. */
  lemma ZoneWordRoundTrip(addr: nat, refs: nat)
    requires addr % 4096 == 0 && refs < 4096
    ensures GetNext(PackZone(addr, refs)) == addr && GetRefs(PackZone(addr, refs)) == refs
  {
  }
}
