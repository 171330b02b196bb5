/**
 The guest virtual-memory services as operations on a value: 128 allocation records, two arenas
 that automatic placements are cut from at either end, and the page map underneath.
 VirtualMemory.dfy is the kernel that updates its tables in place.
 */
module VirtualAllocations {
  import opened Options
  import opened SparsePages

  const MAX_ALLOCATIONS := 128
  const LARGE_PAGE := 0x1_0000
  const SMALL_BEGIN := 0x1000_0000
  const SMALL_END := 0x4000_0000
  const LARGE_BEGIN := 0x4000_0000
  const LARGE_END := 0x5000_0000
  const FIXED_BEGIN := 0x1_0000
  const FIXED_LARGE_END := 0x8000_0000

  const XMEM_COMMIT: bv32 := 0x1000
  const XMEM_RESERVE: bv32 := 0x2000
  const XMEM_DECOMMIT: bv32 := 0x4000
  const XMEM_RESET: bv32 := 0x8_0000
  const XMEM_TOP_DOWN: bv32 := 0x10_0000
  const XMEM_LARGE_PAGES: bv32 := 0x2000_0000

  /** A GuestVirtualAllocation that is in use. */
  datatype Allocation = Allocation(committed: bool, base: nat, size: nat, pageSize: nat, protection: bv32)

  type Slot = Option<Allocation>

  /** What is left of an arena between the placements from below and those from above. */
  datatype Arena = Arena(bottom: nat, top: nat)

  datatype Kernel = Kernel(slots: seq<Slot>, small: Arena, large: Arena, pages: Pages)

  datatype Status = Success | Unsuccessful | InvalidParameter | NoMemory | NotAllocated

  /** What a call leaves: the kernel, its status, and on success the base and size written back. */
  datatype Outcome = Outcome(k: Kernel, status: Status, base: nat, size: nat)

  /** The arguments of NtAllocateVirtualMemory, with the two words its pointers lead to. */
  datatype AllocateCall = AllocateCall(
    basePtr: nat, sizePtr: nat, flags: bv32, protect: bv32, debug: nat, base: nat, size: nat)

  datatype FreeCall = FreeCall(basePtr: nat, sizePtr: nat, freeType: bv32, debug: nat, base: nat, size: nat)

  // ---- small parts ----

  predicate Has(flags: bv32, flag: bv32) {
    flags & flag != 0
  }

  /** The two page sizes there are; each masks addresses with its own power of two. */
  predicate IsPageSize(n: nat) {
    n == PAGE || n == LARGE_PAGE
  }

  predicate Aligned(v: nat, pageSize: nat) {
    if pageSize == LARGE_PAGE then v % LARGE_PAGE == 0 else v % PAGE == 0
  }

  function MaskDown(v: nat, pageSize: nat): (r: nat)
    ensures Aligned(r, pageSize) && r <= v
    ensures v < r + if pageSize == LARGE_PAGE then LARGE_PAGE else PAGE
  {
    if pageSize == LARGE_PAGE then
      assert v == v / LARGE_PAGE * LARGE_PAGE + v % LARGE_PAGE;
      assert v / LARGE_PAGE * LARGE_PAGE % LARGE_PAGE == 0;
      v / LARGE_PAGE * LARGE_PAGE
    else
      assert v == v / PAGE * PAGE + v % PAGE;
      assert v / PAGE * PAGE % PAGE == 0;
      v / PAGE * PAGE
  }

  /** RoundUpGuestSize; None is a failure. */
  function RoundUpGuestSize(value: nat, alignment: nat): Option<nat> {
    if value == 0 || !IsPageSize(alignment) then None
    else
      var rounded := MaskDown(value + alignment - 1, alignment);
      if rounded >= ADDRESS_LIMIT then None else Some(rounded)
  }

  predicate Overlap(aBase: nat, aSize: nat, bBase: nat, bSize: nat) {
    aBase < bBase + bSize && bBase < aBase + aSize
  }

  /** VirtualRangeAvailable. */
  predicate Available(slots: seq<Slot>, base: nat, size: nat) {
    && size > 0 && base + size <= ADDRESS_LIMIT
    && forall i :: 0 <= i < |slots| && slots[i].Some? ==> !Overlap(base, size, slots[i].value.base, slots[i].value.size)
  }

  datatype Query = Unused | Based(base: nat) | Exactly(base: nat, size: nat)

  predicate Hit(s: Slot, q: Query) {
    match q
    case Unused => s.None?
    case Based(base) => s.Some? && s.value.base == base
    case Exactly(base, size) => s.Some? && s.value.base == base && s.value.size == size
  }

  /** The first slot from i on that a query hits. */
  function First(slots: seq<Slot>, q: Query, i: nat): (r: Option<nat>)
    requires i <= |slots|
    ensures r.Some? ==> i <= r.value < |slots| && Hit(slots[r.value], q)
    ensures r.Some? ==> forall j :: i <= j < r.value ==> !Hit(slots[j], q)
    ensures r.None? ==> forall j :: i <= j < |slots| ==> !Hit(slots[j], q)
    decreases |slots| - i
  {
    if i == |slots| then None else if Hit(slots[i], q) then Some(i) else First(slots, q, i + 1)
  }

  function SparseProtectionFromXPage(protect: bv32): bv32 {
    (if protect & (0x02 | 0x04 | 0x08 | 0x20 | 0x40 | 0x80) != 0 then GUEST_READ else 0)
    | (if protect & (0x04 | 0x08 | 0x40 | 0x80) != 0 then GUEST_WRITE else 0)
    | (if protect & (0x10 | 0x20 | 0x40 | 0x80) != 0 then GUEST_EXECUTE else 0)
  }

  function PageSize(flags: bv32): (r: nat)
    ensures IsPageSize(r)
  {
    if Has(flags, XMEM_LARGE_PAGES) then LARGE_PAGE else PAGE
  }

  function ArenaOf(k: Kernel, pageSize: nat): Arena {
    if pageSize == LARGE_PAGE then k.large else k.small
  }

  function WithArena(k: Kernel, pageSize: nat, a: Arena): Kernel {
    if pageSize == LARGE_PAGE then k.(large := a) else k.(small := a)
  }

  // ---- placing ----

  datatype Located = NoRoom(k: Kernel) | Found(k: Kernel, slot: nat, base: nat)

  /** A new reservation in the first free slot. */
  function Take(k: Kernel, base: nat, size: nat, pageSize: nat): Located {
    match First(k.slots, Unused, 0)
    case None => NoRoom(k)
    case Some(i) => Found(k.(slots := k.slots[i := Some(Allocation(false, base, size, pageSize, 0))]), i, base)
  }

  /** Where an automatic placement goes, and what it leaves of its arena. */
  function Bump(slots: seq<Slot>, a: Arena, topDown: bool, size: nat, pageSize: nat): Option<(Arena, nat)>
    requires pageSize > 0
  {
    if topDown then
      if a.top < size || a.top - size < a.bottom then None
      else
        var base := MaskDown(a.top - size, pageSize);
        if base < a.bottom || !Available(slots, base, size) then None
        else Some((a.(top := base), base))
    else
      var base := MaskDown(a.bottom + pageSize - 1, pageSize);
      if base + size > a.top || !Available(slots, base, size) then None
      else Some((a.(bottom := base + size), base))
  }

  predicate FixedAllowed(base: nat, size: nat, pageSize: nat) {
    if pageSize == LARGE_PAGE then LARGE_BEGIN <= base && base + size <= FIXED_LARGE_END
    else FIXED_BEGIN <= base && base + size <= SMALL_END
  }

  /** Finds or makes the record of a request; base 0 asks for an automatic placement. */
  function Locate(k: Kernel, base: nat, size: nat, pageSize: nat, topDown: bool): Located
    requires pageSize > 0
  {
    if base != 0 then
      match First(k.slots, Exactly(base, size), 0)
      case Some(i) => Found(k, i, base)
      case None =>
        if !FixedAllowed(base, size, pageSize) || !Available(k.slots, base, size) then NoRoom(k)
        else Take(k, base, size, pageSize)
    else
      match Bump(k.slots, ArenaOf(k, pageSize), topDown, size, pageSize)
      case None => NoRoom(k)
      case Some((a, at)) => Take(WithArena(k, pageSize, a), at, size, pageSize)
  }

  /** CommitVirtualAllocation: whether it worked, and what it left. */
  function Commit(k: Kernel, i: nat, protection: bv32): (bool, Kernel)
    requires i < |k.slots| && k.slots[i].Some?
  {
    var a := k.slots[i].value;
    if a.committed then
      var k1 := k.(slots := k.slots[i := Some(a.(protection := protection))]);
      match Protect(k.pages, a.base, a.size / PAGE, protection)
      case None => (false, k1)
      case Some(pages) => (true, k1.(pages := pages))
    else
      match Map(k.pages, a.base, a.size / PAGE, protection)
      case None => (false, k)
      case Some(pages) =>
        (true, k.(slots := k.slots[i := Some(a.(committed := true, protection := protection))], pages := pages))
  }

  // ---- the services ----

  function WriteBack(k: Kernel, basePtr: nat, sizePtr: nat, base: nat, size: nat): Outcome {
    if Allows(k.pages, basePtr, GUEST_WRITE) && Allows(k.pages, sizePtr, GUEST_WRITE)
    then Outcome(k, Success, base, size)
    else Outcome(k, InvalidParameter, 0, 0)
  }

  predicate Readable(pages: Pages, basePtr: nat, sizePtr: nat, debug: nat) {
    basePtr != 0 && sizePtr != 0 && debug == 0 && Allows(pages, basePtr, GUEST_READ) && Allows(pages, sizePtr, GUEST_READ)
  }

  predicate GoodFlags(flags: bv32) {
    Has(flags, XMEM_COMMIT | XMEM_RESERVE) && !Has(flags, XMEM_RESET)
  }

  /** The second half of an allocation: commit if asked to, and answer. */
  function Finish(k: Kernel, i: nat, base: nat, size: nat, c: AllocateCall): Outcome
    requires i < |k.slots| && k.slots[i].Some?
  {
    if !Has(c.flags, XMEM_COMMIT) then WriteBack(k, c.basePtr, c.sizePtr, base, size)
    else
      var (ok, k1) := Commit(k, i, SparseProtectionFromXPage(c.protect));
      if ok then WriteBack(k1, c.basePtr, c.sizePtr, base, size)
      else if k.slots[i].value.committed then Outcome(k1, NoMemory, 0, 0)
      else Outcome(k1.(slots := k1.slots[i := None]), NoMemory, 0, 0)
  }

  /** The base an allocation asks for, 0 for any. */
  function WantedBase(c: AllocateCall): nat {
    MaskDown(c.base, PageSize(c.flags))
  }

  /** NtAllocateVirtualMemory. */
  function Allocate(k: Kernel, c: AllocateCall): Outcome {
    var pageSize := PageSize(c.flags);
    if !Readable(k.pages, c.basePtr, c.sizePtr, c.debug) || !GoodFlags(c.flags) || RoundUpGuestSize(c.size, pageSize).None?
    then Outcome(k, InvalidParameter, 0, 0)
    else
      var size := RoundUpGuestSize(c.size, pageSize).value;
      match Locate(k, WantedBase(c), size, pageSize, Has(c.flags, XMEM_TOP_DOWN))
      case NoRoom(k1) => Outcome(k1, NoMemory, 0, 0)
      case Found(k1, i, base) => Finish(k1, i, base, size, c)
  }

  predicate HeapAddress(address: nat) {
    FIXED_BEGIN <= address < SMALL_END || LARGE_BEGIN <= address < FIXED_LARGE_END
  }

  function Decommit(k: Kernel, i: nat, c: FreeCall): Outcome
    requires i < |k.slots| && k.slots[i].Some?
  {
    var a := k.slots[i].value;
    if RoundUpGuestSize(c.size, a.pageSize) != Some(a.size) then Outcome(k, Unsuccessful, 0, 0)
    else if !a.committed then WriteBack(k, c.basePtr, c.sizePtr, c.base, a.size)
    else
      match Unmap(k.pages, a.base, a.size / PAGE)
      case None => Outcome(k, Unsuccessful, 0, 0)
      case Some(pages) =>
        WriteBack(k.(slots := k.slots[i := Some(a.(committed := false, protection := 0))], pages := pages),
                  c.basePtr, c.sizePtr, c.base, a.size)
  }

  function Release(k: Kernel, i: nat, c: FreeCall): Outcome
    requires i < |k.slots| && k.slots[i].Some?
  {
    var a := k.slots[i].value;
    var pages := if a.committed then Unmap(k.pages, a.base, a.size / PAGE) else Some(k.pages);
    match pages
    case None => Outcome(k, Unsuccessful, 0, 0)
    case Some(left) =>
      WriteBack(k.(slots := k.slots[i := None], pages := left), c.basePtr, c.sizePtr, c.base, a.size)
  }

  /** NtFreeVirtualMemory: every free type but decommit releases. */
  function Free(k: Kernel, c: FreeCall): Outcome {
    if !Readable(k.pages, c.basePtr, c.sizePtr, c.debug) then Outcome(k, InvalidParameter, 0, 0)
    else if c.base == 0 then Outcome(k, NotAllocated, 0, 0)
    else
      match First(k.slots, Based(c.base), 0)
      case None => Outcome(k, if HeapAddress(c.base) then Unsuccessful else InvalidParameter, 0, 0)
      case Some(i) => if c.freeType == XMEM_DECOMMIT then Decommit(k, i, c) else Release(k, i, c)
  }

  /** Unmapping what the first n records have committed. */
  function Unmapped(slots: seq<Slot>, pages: Pages, n: nat): Pages
    requires n <= |slots|
  {
    if n == 0 then pages
    else
      var rest := Unmapped(slots, pages, n - 1);
      match slots[n - 1]
      case None => rest
      case Some(a) =>
        if !a.committed then rest
        else
          match Unmap(rest, a.base, a.size / PAGE)
          case None => rest
          case Some(left) => left
  }

  function NoSlots(n: nat): (r: seq<Slot>)
    ensures |r| == n && forall i :: 0 <= i < n ==> r[i].None?
  {
    if n == 0 then [] else NoSlots(n - 1) + [None]
  }

  /** ReleaseVirtualAllocations. */
  function Reset(k: Kernel): Kernel {
    Kernel(NoSlots(MAX_ALLOCATIONS), Arena(SMALL_BEGIN, SMALL_END), Arena(LARGE_BEGIN, LARGE_END),
           Unmapped(k.slots, k.pages, |k.slots|))
  }

  // ---- what every call keeps ----

  /** A record's own shape: inside its heap and made of whole pages of its size. */
  predicate GoodAllocation(a: Allocation) {
    && IsPageSize(a.pageSize)
    && a.size > 0 && Aligned(a.base, a.pageSize) && Aligned(a.size, a.pageSize)
    && FixedAllowed(a.base, a.size, a.pageSize)
  }

  predicate GoodSlots(slots: seq<Slot>) {
    && |slots| == 128
    && (forall i :: 0 <= i < |slots| && slots[i].Some? ==> GoodAllocation(slots[i].value))
    && (forall i, j :: 0 <= i < j < |slots| && slots[i].Some? && slots[j].Some? ==> Apart(slots[i].value, slots[j].value))
  }

  predicate Apart(a: Allocation, b: Allocation) {
    !Overlap(a.base, a.size, b.base, b.size)
  }

  ghost predicate Owns(s: Slot, p: nat) {
    s.Some? && s.value.committed && InRange(p, s.value.base / PAGE, s.value.size / PAGE)
  }

  ghost predicate Owned(slots: seq<Slot>, p: nat) {
    exists i :: 0 <= i < |slots| && Owns(slots[i], p)
  }

  /** The mapped pages are those somebody else mapped and those of the committed allocations, each with its protection. */
  ghost predicate PagesRight(slots: seq<Slot>, pages: Pages, foreign: Pages) {
    && (forall p :: p in pages <==> p in foreign || Owned(slots, p))
    && (forall p :: p in foreign ==> !Owned(slots, p) && p in pages && pages[p] == foreign[p])
    && (forall i, p :: 0 <= i < |slots| && Owns(slots[i], p) ==> p in pages && pages[p] == slots[i].value.protection)
  }

  predicate GoodArena(a: Arena, begin: nat, end: nat, pageSize: nat) {
    begin <= a.bottom <= a.top <= end && Aligned(a.bottom, pageSize) && Aligned(a.top, pageSize)
  }

  ghost predicate Inv(k: Kernel, foreign: Pages) {
    && GoodSlots(k.slots)
    && PagesRight(k.slots, k.pages, foreign)
    && GoodArena(k.small, SMALL_BEGIN, SMALL_END, PAGE)
    && GoodArena(k.large, LARGE_BEGIN, LARGE_END, LARGE_PAGE)
  }
}
