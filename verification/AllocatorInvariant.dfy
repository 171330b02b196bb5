/**
 What every allocation and free keeps: live allocations apart, aligned and inside their heaps, and
 the mapped pages exactly those of somebody else and of the committed allocations.
 */
module AllocatorInvariant {
  import opened Options
  import opened SparsePages
  import opened VirtualAllocations

  // ---- pages of one allocation ----

  lemma AlignedIsPaged(v: nat, pageSize: nat)
    requires IsPageSize(pageSize) && Aligned(v, pageSize)
    ensures v % PAGE == 0 && v == v / PAGE * PAGE
  {
    if pageSize == LARGE_PAGE {
      assert v == PAGE * (16 * (v / LARGE_PAGE));
    }
  }

  lemma PageAligned(a: Allocation)
    requires GoodAllocation(a)
    ensures a.base % PAGE == 0 && a.base == a.base / PAGE * PAGE
    ensures a.size == a.size / PAGE * PAGE && a.size / PAGE > 0
    ensures RangeValid(a.base, a.size / PAGE)
    ensures a.base > 0 && a.base + a.size <= FIXED_LARGE_END
  {
    AlignedIsPaged(a.base, a.pageSize);
    AlignedIsPaged(a.size, a.pageSize);
    hide Aligned;
  }

  lemma ApartPages(a: Allocation, b: Allocation, p: nat)
    requires GoodAllocation(a) && GoodAllocation(b) && Apart(a, b)
    requires InRange(p, a.base / PAGE, a.size / PAGE)
    ensures !InRange(p, b.base / PAGE, b.size / PAGE)
  {
    hide Aligned;
    PageAligned(a);
    PageAligned(b);
  }

  /** No page has two owners. */
  lemma OwnsOne(slots: seq<Slot>, i: nat, j: nat, p: nat)
    requires GoodSlots(slots) && i < |slots| && j < |slots|
    requires Owns(slots[i], p) && Owns(slots[j], p)
    ensures i == j
  {
    if i < j {
      ApartPages(slots[i].value, slots[j].value, p);
    } else if j < i {
      ApartPages(slots[j].value, slots[i].value, p);
    }
  }

  lemma OwnedAfterUpdate(slots: seq<Slot>, i: nat, s: Slot, p: nat)
    requires i < |slots|
    ensures Owned(slots[i := s], p) ==> Owned(slots, p) || Owns(s, p)
    ensures Owns(s, p) ==> Owned(slots[i := s], p)
    ensures Owned(slots, p) && !Owns(slots[i], p) ==> Owned(slots[i := s], p)
  {
    if Owns(s, p) {
      assert Owns(slots[i := s][i], p);
    }
    if Owned(slots, p) && !Owns(slots[i], p) {
      var j :| 0 <= j < |slots| && Owns(slots[j], p);
      assert Owns(slots[i := s][j], p);
    }
    if Owned(slots[i := s], p) {
      var j :| 0 <= j < |slots| && Owns(slots[i := s][j], p);
      if j != i {
        assert Owns(slots[j], p);
      }
    }
  }

  lemma DisownedAfterUpdate(slots: seq<Slot>, i: nat, s: Slot, p: nat)
    requires GoodSlots(slots) && i < |slots| && !Owns(s, p) && Owns(slots[i], p)
    ensures !Owned(slots[i := s], p)
  {
    if Owned(slots[i := s], p) {
      var j :| 0 <= j < |slots| && Owns(slots[i := s][j], p);
      OwnsOne(slots, i, j, p);
    }
  }

  // ---- the records ----

  lemma PlacedKeepsGood(slots: seq<Slot>, i: nat, a: Allocation)
    requires GoodSlots(slots) && i < |slots| && GoodAllocation(a)
    requires slots[i].None? && Available(slots, a.base, a.size)
    ensures GoodSlots(slots[i := Some(a)])
  {
    hide GoodAllocation;
  }

  /** A record may change its commit state and protection, or go. */
  lemma ReplacedKeepsGood(slots: seq<Slot>, i: nat, s: Slot)
    requires GoodSlots(slots) && i < |slots|
    requires s.Some? ==>
               && slots[i].Some?
               && s.value == slots[i].value.(committed := s.value.committed, protection := s.value.protection)
    ensures GoodSlots(slots[i := s])
  {
  }

  // ---- the page map ----

  lemma UncommittedKeepsPages(slots: seq<Slot>, i: nat, s: Slot, pages: Pages, foreign: Pages)
    requires PagesRight(slots, pages, foreign) && i < |slots|
    requires slots[i].Some? ==> !slots[i].value.committed
    requires s.Some? ==> !s.value.committed
    ensures PagesRight(slots[i := s], pages, foreign)
  {
    forall p
      ensures Owned(slots[i := s], p) <==> Owned(slots, p)
    {
      OwnedAfterUpdate(slots, i, s, p);
    }
    forall j, p | 0 <= j < |slots| && Owns(slots[i := s][j], p)
      ensures Owns(slots[j], p)
    {
    }
  }

  lemma MappedKeepsPages(slots: seq<Slot>, i: nat, a: Allocation, pages: Pages, foreign: Pages)
    requires PagesRight(slots, pages, foreign) && i < |slots| && slots[i].Some? && !slots[i].value.committed && a.committed
    requires NoneMapped(pages, a.base / PAGE, a.size / PAGE)
    ensures PagesRight(slots[i := Some(a)], Covering(pages, a.base / PAGE, a.size / PAGE, a.protection), foreign)
  {
    hide Covering, Owned;
    var slots' := slots[i := Some(a)];
    var pages' := Covering(pages, a.base / PAGE, a.size / PAGE, a.protection);
    forall p
      ensures Owned(slots', p) <==> Owned(slots, p) || Owns(Some(a), p)
    {
      OwnedAfterUpdate(slots, i, Some(a), p);
    }
    forall j, p | 0 <= j < |slots| && Owns(slots'[j], p)
      ensures p in pages' && pages'[p] == slots'[j].value.protection
    {
      if j != i {
        assert Owns(slots[j], p);
      }
    }
  }

  lemma OwnedAreMapped(slots: seq<Slot>, i: nat, pages: Pages, foreign: Pages)
    requires PagesRight(slots, pages, foreign) && i < |slots| && slots[i].Some? && slots[i].value.committed
    ensures AllMapped(pages, slots[i].value.base / PAGE, slots[i].value.size / PAGE)
  {
    forall p: nat | InRange(p, slots[i].value.base / PAGE, slots[i].value.size / PAGE)
      ensures p in pages
    {
      assert Owns(slots[i], p);
    }
  }

  lemma ProtectedKeepsPages(slots: seq<Slot>, i: nat, protection: bv32, pages: Pages, foreign: Pages)
    requires GoodSlots(slots) && PagesRight(slots, pages, foreign)
    requires i < |slots| && slots[i].Some? && slots[i].value.committed
    ensures var a := slots[i].value;
            PagesRight(slots[i := Some(a.(protection := protection))],
                       Covering(pages, a.base / PAGE, a.size / PAGE, protection), foreign)
  {
    hide GoodSlots, GoodAllocation, Covering;
    var a := slots[i].value.(protection := protection);
    var slots' := slots[i := Some(a)];
    var pages' := Covering(pages, a.base / PAGE, a.size / PAGE, protection);
    forall p
      ensures Owned(slots', p) <==> Owned(slots, p)
      ensures Owns(Some(a), p) ==> Owned(slots, p)
    {
      OwnedAfterUpdate(slots, i, Some(a), p);
      assert Owns(Some(a), p) <==> Owns(slots[i], p);
    }
    forall j, p | 0 <= j < |slots| && Owns(slots'[j], p)
      ensures p in pages' && pages'[p] == slots'[j].value.protection
    {
      assert Owns(slots[j], p);
      if j != i && Owns(slots[i], p) {
        OwnsOne(slots, i, j, p);
      }
    }
  }

  /** Unmapping what a record owns, and the record owning nothing any more. */
  lemma UnmappedKeepsPages(slots: seq<Slot>, i: nat, s: Slot, pages: Pages, foreign: Pages)
    requires GoodSlots(slots) && PagesRight(slots, pages, foreign)
    requires i < |slots| && slots[i].Some? && slots[i].value.committed
    requires s.Some? ==> !s.value.committed
    ensures PagesRight(slots[i := s], Without(pages, slots[i].value.base / PAGE, slots[i].value.size / PAGE), foreign)
  {
    hide GoodSlots, GoodAllocation;
    var slots' := slots[i := s];
    var pages' := Without(pages, slots[i].value.base / PAGE, slots[i].value.size / PAGE);
    forall p
      ensures Owned(slots', p) <==> Owned(slots, p) && !Owns(slots[i], p)
      ensures Owns(slots[i], p) ==> Owned(slots, p)
    {
      OwnedAfterUpdate(slots, i, s, p);
      if Owns(slots[i], p) {
        DisownedAfterUpdate(slots, i, s, p);
      }
    }
    forall j, p | 0 <= j < |slots| && Owns(slots'[j], p)
      ensures p in pages' && pages'[p] == slots'[j].value.protection
    {
      assert Owns(slots[j], p);
      if Owns(slots[i], p) {
        OwnsOne(slots, i, j, p);
      }
    }
  }

  // ---- placing ----

  lemma RoundedSize(value: nat, pageSize: nat)
    requires RoundUpGuestSize(value, pageSize).Some?
    ensures var size := RoundUpGuestSize(value, pageSize).value;
            size > 0 && Aligned(size, pageSize) && value <= size < value + pageSize
  {
    assert value + pageSize - 1 < MaskDown(value + pageSize - 1, pageSize) + pageSize;
  }

  lemma SmallMultiples(p: nat, q: nat)
    ensures (PAGE * p + PAGE * q) % PAGE == 0 && (p >= q ==> (PAGE * p - PAGE * q) % PAGE == 0)
  {
    assert PAGE * p + PAGE * q == PAGE * (p + q) && PAGE * p - PAGE * q == PAGE * (p - q);
  }

  lemma LargeMultiples(p: nat, q: nat)
    ensures (LARGE_PAGE * p + LARGE_PAGE * q) % LARGE_PAGE == 0
    ensures p >= q ==> (LARGE_PAGE * p - LARGE_PAGE * q) % LARGE_PAGE == 0
  {
    assert LARGE_PAGE * p + LARGE_PAGE * q == LARGE_PAGE * (p + q) && LARGE_PAGE * p - LARGE_PAGE * q == LARGE_PAGE * (p - q);
  }

  /** Both ends of a sum, aligned to the same page size. */
  lemma AlignedSum(a: nat, b: nat, pageSize: nat)
    requires Aligned(a, pageSize) && Aligned(b, pageSize)
    ensures Aligned(a + b, pageSize)
    ensures a >= b ==> Aligned(a - b, pageSize)
  {
    if pageSize == LARGE_PAGE {
      LargeMultiples(a / LARGE_PAGE, b / LARGE_PAGE);
    } else {
      SmallMultiples(a / PAGE, b / PAGE);
    }
  }

  /** Rounding an aligned address down, or one less than a page above it, comes back to it. */
  lemma MaskAligned(v: nat, pageSize: nat)
    requires IsPageSize(pageSize) && Aligned(v, pageSize)
    ensures MaskDown(v, pageSize) == v && MaskDown(v + pageSize - 1, pageSize) == v
  {
    if pageSize == LARGE_PAGE {
      assert v == LARGE_PAGE * (v / LARGE_PAGE);
    } else {
      assert v == PAGE * (v / PAGE);
    }
  }

  /**
   An automatic placement is made exactly when it fits the gap and meets no live allocation: at the
   bottom of the gap, or, from the top down, at its top; and the gap closes over it from that side alone.
   */
  lemma BumpPlaces(slots: seq<Slot>, a: Arena, begin: nat, end: nat, topDown: bool, size: nat, pageSize: nat)
    requires IsPageSize(pageSize) && GoodArena(a, begin, end, pageSize) && size > 0 && Aligned(size, pageSize)
    ensures a.bottom + size <= a.top ==>
              var at := if topDown then a.top - size else a.bottom;
              && Aligned(at, pageSize)
              && GoodArena(if topDown then Arena(a.bottom, at) else Arena(at + size, a.top), begin, end, pageSize)
    ensures Bump(slots, a, topDown, size, pageSize) ==
              if a.bottom + size > a.top then None
              else if !Available(slots, if topDown then a.top - size else a.bottom, size) then None
              else if topDown then Some((Arena(a.bottom, a.top - size), a.top - size))
              else Some((Arena(a.bottom + size, a.top), a.bottom))
  {
    hide Available, MaskDown;
    MaskAligned(a.bottom, pageSize);
    AlignedSum(a.bottom, size, pageSize);
    if a.bottom + size <= a.top {
      AlignedSum(a.top, size, pageSize);
      MaskAligned(a.top - size, pageSize);
    }
    hide Aligned;
  }

  /** A record the allocation may use, one that was there or a new one in a free slot; all else is as it was. */
  ghost predicate LocatedRight(k: Kernel, base: nat, size: nat, pageSize: nat, r: Located, foreign: Pages) {
    && Inv(r.k, foreign) && r.k.pages == k.pages
    && (r.NoRoom? ==> r.k.slots == k.slots)
    && (r.Found? ==>
          && r.slot < |k.slots| && |r.k.slots| == |k.slots| && r.k.slots[r.slot].Some?
          && r.k.slots[r.slot].value.base == r.base && r.k.slots[r.slot].value.size == size
          && (base != 0 ==> r.base == base)
          && (if k.slots[r.slot].Some? then base != 0 && r.k == k
              else r.k.slots == k.slots[r.slot := Some(Allocation(false, r.base, size, pageSize, 0))]))
  }

  lemma TakeRight(k0: Kernel, k: Kernel, want: nat, base: nat, size: nat, pageSize: nat, foreign: Pages)
    requires Inv(k, foreign) && k0.slots == k.slots && k0.pages == k.pages && (want != 0 ==> want == base)
    requires Available(k.slots, base, size) && GoodAllocation(Allocation(false, base, size, pageSize, 0))
    ensures LocatedRight(k0, want, size, pageSize, Take(k, base, size, pageSize), foreign)
  {
    hide GoodAllocation, Available, PagesRight, GoodArena, GoodSlots;
    var free := First(k.slots, Unused, 0);
    if free.Some? {
      var a := Allocation(false, base, size, pageSize, 0);
      assert |k.slots| == MAX_ALLOCATIONS by { SlotCount(k.slots); }
      PlacedKeepsGood(k.slots, free.value, a);
      UncommittedKeepsPages(k.slots, free.value, Some(a), k.pages, foreign);
    }
  }

  lemma SlotCount(slots: seq<Slot>)
    requires GoodSlots(slots)
    ensures |slots| == MAX_ALLOCATIONS
  {
  }

  lemma WithArenaKeeps(k: Kernel, pageSize: nat, a: Arena, foreign: Pages)
    requires Inv(k, foreign) && IsPageSize(pageSize)
    requires if pageSize == LARGE_PAGE then GoodArena(a, LARGE_BEGIN, LARGE_END, LARGE_PAGE)
             else GoodArena(a, SMALL_BEGIN, SMALL_END, PAGE)
    ensures Inv(WithArena(k, pageSize, a), foreign)
    ensures WithArena(k, pageSize, a).slots == k.slots && WithArena(k, pageSize, a).pages == k.pages
  {
    hide GoodSlots, PagesRight, GoodArena;
  }

  lemma LocateRight(k: Kernel, base: nat, size: nat, pageSize: nat, topDown: bool, foreign: Pages)
    requires Inv(k, foreign) && IsPageSize(pageSize) && size > 0 && Aligned(size, pageSize) && Aligned(base, pageSize)
    ensures LocatedRight(k, base, size, pageSize, Locate(k, base, size, pageSize, topDown), foreign)
  {
    hide Available, PagesRight, GoodSlots, Bump, Take, Aligned;
    SlotCount(k.slots);
    if base != 0 {
      var i := First(k.slots, Exactly(base, size), 0);
      if i.None? && FixedAllowed(base, size, pageSize) && Available(k.slots, base, size) {
        TakeRight(k, k, base, base, size, pageSize, foreign);
      }
    } else {
      var a := ArenaOf(k, pageSize);
      var begin := if pageSize == LARGE_PAGE then LARGE_BEGIN else SMALL_BEGIN;
      var end := if pageSize == LARGE_PAGE then LARGE_END else SMALL_END;
      var b := Bump(k.slots, a, topDown, size, pageSize);
      if b.Some? {
        BumpPlaces(k.slots, a, begin, end, topDown, size, pageSize);
        WithArenaKeeps(k, pageSize, b.value.0, foreign);
        TakeRight(k, WithArena(k, pageSize, b.value.0), base, b.value.1, size, pageSize, foreign);
      }
    }
  }

  // ---- committing ----

  lemma ProtectionIsValid(protect: bv32)
    ensures SparseProtectionFromXPage(protect) & !VALID_PROTECTION == 0
  {
  }

  /**
   Committing keeps everything else as it is. It fails only for a reservation that was not
   committed and whose range meets a page somebody else has mapped, and then changes nothing.
   */
  lemma CommitKeeps(k: Kernel, i: nat, protect: bv32, foreign: Pages)
    requires Inv(k, foreign) && i < |k.slots| && k.slots[i].Some?
    ensures var (ok, k1) := Commit(k, i, SparseProtectionFromXPage(protect));
            var a := k.slots[i].value;
            && Inv(k1, foreign) && k1.small == k.small && k1.large == k.large
            && (ok <==> a.committed || NoneMapped(k.pages, a.base / PAGE, a.size / PAGE))
            && (!ok ==> k1 == k)
            && (ok ==> k1.slots == k.slots[i := Some(a.(committed := true, protection := SparseProtectionFromXPage(protect)))])
            && (ok ==> k1.pages == Covering(k.pages, a.base / PAGE, a.size / PAGE, SparseProtectionFromXPage(protect)))
  {
    hide GoodSlots, PagesRight, GoodArena, GoodAllocation, SparseProtectionFromXPage, Covering, NoneMapped, AllMapped;
    var protection := SparseProtectionFromXPage(protect);
    ProtectionIsValid(protect);
    var a := k.slots[i].value;
    OneGood(k.slots, i);
    PageAligned(a);
    ReplacedKeepsGood(k.slots, i, Some(a.(committed := true, protection := protection)));
    if a.committed {
      OwnedAreMapped(k.slots, i, k.pages, foreign);
      ProtectedKeepsPages(k.slots, i, protection, k.pages, foreign);
      assert a.(protection := protection) == a.(committed := true, protection := protection);
    } else if NoneMapped(k.pages, a.base / PAGE, a.size / PAGE) {
      MappedKeepsPages(k.slots, i, a.(committed := true, protection := protection), k.pages, foreign);
    }
  }

  lemma OneGood(slots: seq<Slot>, i: nat)
    requires GoodSlots(slots) && i < |slots| && slots[i].Some?
    ensures GoodAllocation(slots[i].value)
  {
    hide GoodAllocation;
  }
}
