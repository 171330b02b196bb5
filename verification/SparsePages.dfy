/**
 The sparse guest page table, as far as the allocator relies on it: which 4 KiB pages are mapped
 and with what protection. Mapping, protecting and unmapping a range is all or nothing.
 */
module SparsePages {
  import opened Options

  type Pages = map<nat, bv32>

  const PAGE := 0x1000
  const ADDRESS_LIMIT := 0x1_0000_0000
  const GUEST_READ: bv32 := 1
  const GUEST_WRITE: bv32 := 2
  const GUEST_EXECUTE: bv32 := 4
  const VALID_PROTECTION: bv32 := 7

  /** PageRangeValid. */
  predicate RangeValid(address: nat, count: nat) {
    count > 0 && address % PAGE == 0 && address + count * PAGE <= ADDRESS_LIMIT
  }

  predicate InRange(p: nat, first: nat, count: nat) {
    first <= p < first + count
  }

  predicate AllMapped(pages: Pages, first: nat, count: nat) {
    forall p: nat :: first <= p < first + count ==> p in pages
  }

  predicate NoneMapped(pages: Pages, first: nat, count: nat) {
    forall p: nat :: first <= p < first + count ==> p !in pages
  }

  function PageRange(first: nat, count: nat): (r: set<nat>)
    ensures forall p: nat :: p in r <==> InRange(p, first, count)
  {
    set p: nat | first <= p < first + count && InRange(p, first, count)
  }

  function Covering(pages: Pages, first: nat, count: nat, protection: bv32): (r: Pages)
    ensures forall p :: p in r <==> p in pages || InRange(p, first, count)
    ensures forall p :: p in r ==> r[p] == if InRange(p, first, count) then protection else pages[p]
  {
    map p: nat | p in pages.Keys + PageRange(first, count) ::
      if InRange(p, first, count) then protection else pages[p]
  }

  function Without(pages: Pages, first: nat, count: nat): (r: Pages)
    ensures forall p :: p in r <==> p in pages && !InRange(p, first, count)
    ensures forall p :: p in r ==> r[p] == pages[p]
  {
    map p: nat | p in pages && !InRange(p, first, count) :: pages[p]
  }

  /** MapSparseGuestMemory over a fresh backing of the same size. */
  function Map(pages: Pages, address: nat, count: nat, protection: bv32): Option<Pages> {
    if !RangeValid(address, count) || protection & !VALID_PROTECTION != 0 || !NoneMapped(pages, address / PAGE, count)
    then None
    else Some(Covering(pages, address / PAGE, count, protection))
  }

  function Protect(pages: Pages, address: nat, count: nat, protection: bv32): Option<Pages> {
    if !RangeValid(address, count) || protection & !VALID_PROTECTION != 0 || !AllMapped(pages, address / PAGE, count)
    then None
    else Some(Covering(pages, address / PAGE, count, protection))
  }

  function Unmap(pages: Pages, address: nat, count: nat): Option<Pages> {
    if !RangeValid(address, count) || !AllMapped(pages, address / PAGE, count) then None
    else Some(Without(pages, address / PAGE, count))
  }

  /** The page's first address lies in count pages from the address on. */
  ghost predicate Inside(p: nat, address: nat, count: nat) {
    address <= p * 0x1000 < address + count * 0x1000
  }

  /** Some whole pages within the 4 GiB there are. */
  ghost predicate IsPageRange(address: nat, count: nat) {
    0 < count && address % 0x1000 == 0 && address + count * 0x1000 <= 0x1_0000_0000
  }

  lemma InsideIsInRange(p: nat, address: nat, count: nat)
    requires address % 0x1000 == 0
    ensures Inside(p, address, count) <==> InRange(p, address / PAGE, count)
  {
    assert address == address / 0x1000 * 0x1000;
  }

  lemma InsideAll(pages: Pages, address: nat, count: nat)
    requires address % 0x1000 == 0
    ensures forall p: nat :: Inside(p, address, count) <==> InRange(p, address / PAGE, count)
    ensures NoneMapped(pages, address / PAGE, count) <==> forall p: nat :: Inside(p, address, count) ==> p !in pages
    ensures AllMapped(pages, address / PAGE, count) <==> forall p: nat :: Inside(p, address, count) ==> p in pages
  {
    forall p: nat
      ensures Inside(p, address, count) <==> InRange(p, address / PAGE, count)
    {
      InsideIsInRange(p, address, count);
    }
    hide Inside;
    assert forall p: nat :: InRange(p, address / PAGE, count) <==> address / PAGE <= p < address / PAGE + count;
  }

  /**
   A mapping is made exactly of whole pages none of which is mapped, gives each the protection, and changes
   no other page; unmapping what was just mapped leaves the table as it was.
   */
  lemma UnmapUndoesMap(pages: Pages, address: nat, count: nat, protection: bv32)
    ensures var mapped := Map(pages, address, count, protection);
            && (mapped.Some? <==> IsPageRange(address, count) && protection & !7 == 0
                                  && forall p: nat :: Inside(p, address, count) ==> p !in pages)
            && (mapped.Some? ==>
                  && Unmap(mapped.value, address, count) == Some(pages)
                  && forall p: nat :: p in mapped.value <==> p in pages || Inside(p, address, count))
            && (mapped.Some? ==>
                  forall p: nat :: p in mapped.value ==>
                    mapped.value[p] == if Inside(p, address, count) then protection else pages[p])
  {
    if IsPageRange(address, count) {
      InsideAll(pages, address, count);
    }
    hide Inside, InRange, NoneMapped;
    var mapped := Map(pages, address, count, protection);
    if mapped.Some? {
      MappedIsMapped(pages, address, count, protection);
    }
  }

  lemma MappedIsMapped(pages: Pages, address: nat, count: nat, protection: bv32)
    requires NoneMapped(pages, address / PAGE, count)
    ensures var r := Covering(pages, address / PAGE, count, protection);
            AllMapped(r, address / PAGE, count) && Without(r, address / PAGE, count) == pages
  {
    var r := Covering(pages, address / PAGE, count, protection);
    assert forall p :: InRange(p, address / PAGE, count) ==> p !in pages;
    assert Without(r, address / PAGE, count) == pages;
  }

  /**
   An unmapping takes exactly whole pages that are all mapped, and them alone; protecting such a range is
   unmapping it and mapping it anew.
   */
  lemma ProtectIsRemap(pages: Pages, address: nat, count: nat, protection: bv32)
    ensures var rest := Unmap(pages, address, count);
            && (rest.Some? <==> IsPageRange(address, count) && forall p: nat :: Inside(p, address, count) ==> p in pages)
            && (rest.Some? ==> forall p: nat :: p in rest.value <==> p in pages && !Inside(p, address, count))
            && (rest.Some? ==> forall p: nat :: p in rest.value ==> rest.value[p] == pages[p])
            && Protect(pages, address, count, protection)
               == if rest.Some? then Map(rest.value, address, count, protection) else None
  {
    if IsPageRange(address, count) {
      InsideAll(pages, address, count);
    }
    hide Inside, AllMapped;
    var rest := Unmap(pages, address, count);
    if rest.Some? {
      assert NoneMapped(rest.value, address / PAGE, count) by {
        assert forall p: nat :: p in rest.value ==> !InRange(p, address / PAGE, count);
      }
      assert Covering(rest.value, address / PAGE, count, protection) == Covering(pages, address / PAGE, count, protection);
    }
  }

  /** Whether a four-byte access at address meets only pages that allow it (ValidateSpan). */
  predicate Allows(pages: Pages, address: nat, protection: bv32) {
    && address + 3 < ADDRESS_LIMIT
    && Permits(pages, address / PAGE, protection)
    && Permits(pages, (address + 3) / PAGE, protection)
  }

  predicate Permits(pages: Pages, page: nat, protection: bv32) {
    page in pages && pages[page] & protection == protection
  }

  /** One byte lies within the 4 GiB and in a page that allows it. */
  ghost predicate ByteAllows(pages: Pages, address: nat, protection: bv32) {
    address < 0x1_0000_0000 && Permits(pages, address / 0x1000, protection)
  }

  /** An access is allowed exactly when every one of its four bytes is. */
  lemma AllowsEveryByte(pages: Pages, address: nat, protection: bv32)
    ensures Allows(pages, address, protection) <==>
              && ByteAllows(pages, address, protection) && ByteAllows(pages, address + 1, protection)
              && ByteAllows(pages, address + 2, protection) && ByteAllows(pages, address + 3, protection)
  {
    hide Permits;
    assert forall i :: address <= i <= address + 3 ==> i / 0x1000 == address / 0x1000 || i / 0x1000 == (address + 3) / 0x1000;
  }
}
