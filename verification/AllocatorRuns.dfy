/**
 The guest virtual-memory services call by call: what a call that succeeds gives, what a call that
 fails leaves, and that each keeps the invariant. Whole runs are AllocatorHistory.dfy's.
 */
module AllocatorRuns {
  import opened Options
  import opened SparsePages
  import opened VirtualAllocations
  import opened AllocatorInvariant

  // ---- one allocation ----

  lemma FinishKeeps(k: Kernel, i: nat, base: nat, size: nat, c: AllocateCall, foreign: Pages)
    requires Inv(k, foreign) && i < |k.slots| && k.slots[i].Some?
    ensures Inv(Finish(k, i, base, size, c).k, foreign)
  {
    hide Has, GoodSlots, PagesRight, GoodArena, Commit, SparseProtectionFromXPage, Allows;
    if Has(c.flags, XMEM_COMMIT) {
      CommitKeeps(k, i, c.protect, foreign);
      ReplacedKeepsGood(k.slots, i, None);
      if !k.slots[i].value.committed {
        UncommittedKeepsPages(k.slots, i, None, k.pages, foreign);
      }
    }
  }

  /** Every allocation call, whatever its arguments and however it ends. */
  lemma AllocateKeeps(k: Kernel, c: AllocateCall, foreign: Pages)
    requires Inv(k, foreign)
    ensures Inv(Allocate(k, c).k, foreign)
  {
    hide Has, GoodFlags, PageSize, First, MaskDown, GoodSlots, PagesRight, GoodArena, Locate, Finish, Readable,
      RoundUpGuestSize, Aligned;
    var pageSize := PageSize(c.flags);
    var rounded := RoundUpGuestSize(c.size, pageSize);
    if rounded.Some? {
      RoundedSize(c.size, pageSize);
      LocateRight(k, WantedBase(c), rounded.value, pageSize, Has(c.flags, XMEM_TOP_DOWN), foreign);
      var r := Locate(k, WantedBase(c), rounded.value, pageSize, Has(c.flags, XMEM_TOP_DOWN));
      if r.Found? {
        FinishKeeps(r.k, r.slot, r.base, rounded.value, c, foreign);
      }
    }
  }

  /** The live allocation with this base; at most one has it. */
  function LiveAt(slots: seq<Slot>, base: nat): Option<Allocation> {
    match First(slots, Based(base), 0)
    case None => None
    case Some(i) => Some(slots[i].value)
  }

  lemma BasesDiffer(slots: seq<Slot>, i: nat, j: nat)
    requires GoodSlots(slots) && i < |slots| && j < |slots| && i != j && slots[i].Some? && slots[j].Some?
    ensures slots[i].value.base != slots[j].value.base
  {
    OneGood(slots, i);
    OneGood(slots, j);
    assert Apart(slots[i].value, slots[j].value) || Apart(slots[j].value, slots[i].value);
  }

  lemma LiveAtSlot(slots: seq<Slot>, i: nat)
    requires GoodSlots(slots) && i < |slots| && slots[i].Some?
    ensures First(slots, Based(slots[i].value.base), 0) == Some(i)
    ensures LiveAt(slots, slots[i].value.base) == Some(slots[i].value)
  {
    hide GoodSlots;
    assert Hit(slots[i], Based(slots[i].value.base));
    var j := First(slots, Based(slots[i].value.base), 0).value;
    if j != i {
      BasesDiffer(slots, i, j);
    }
  }

  lemma LiveAfterUpdate(slots: seq<Slot>, i: nat, s: Slot, base: nat)
    requires i < |slots| && GoodSlots(slots) && GoodSlots(slots[i := s])
    requires slots[i].Some? ==> slots[i].value.base != base
    requires s.Some? ==> s.value.base != base
    ensures LiveAt(slots[i := s], base) == LiveAt(slots, base)
  {
    hide GoodSlots;
    var at := First(slots, Based(base), 0);
    if at.Some? {
      LiveAtSlot(slots, at.value);
      LiveAtSlot(slots[i := s], at.value);
    } else {
      var slots' := slots[i := s];
      forall j | 0 <= j < |slots'|
        ensures !Hit(slots'[j], Based(base))
      {
        assert !Hit(slots[j], Based(base));
      }
    }
  }

  /** What an allocation at base that took effect has done, and that it touched nothing else. */
  ghost predicate Gives(k: Kernel, c: AllocateCall, k': Kernel, base: nat) {
    var a := LiveAt(k'.slots, base);
    && a.Some? && RoundUpGuestSize(c.size, PageSize(c.flags)) == Some(a.value.size)
    && (WantedBase(c) != 0 ==> base == WantedBase(c))
    && (Has(c.flags, XMEM_COMMIT) ==>
          && a.value.committed && a.value.protection == SparseProtectionFromXPage(c.protect)
          && k'.pages == Covering(k.pages, base / PAGE, a.value.size / PAGE, SparseProtectionFromXPage(c.protect)))
    && (!Has(c.flags, XMEM_COMMIT) ==> k'.pages == k.pages)
    && (forall other :: other != base ==> LiveAt(k'.slots, other) == LiveAt(k.slots, other))
  }

  /** Whether the answer of an allocation could be written. */
  predicate Writable(k: Kernel, c: AllocateCall) {
    Allows(k.pages, c.basePtr, GUEST_WRITE) && Allows(k.pages, c.sizePtr, GUEST_WRITE)
  }

  lemma FinishGives(k: Kernel, i: nat, size: nat, c: AllocateCall, foreign: Pages)
    requires Inv(k, foreign) && i < |k.slots| && k.slots[i].Some? && k.slots[i].value.size == size
    requires !Finish(k, i, k.slots[i].value.base, size, c).status.NoMemory?
    ensures var base := k.slots[i].value.base;
            var o := Finish(k, i, base, size, c);
            && (if Writable(o.k, c) then o.status.Success? && o.base == base && o.size == size else o.status.InvalidParameter?)
            && LiveAt(o.k.slots, base).Some? && LiveAt(o.k.slots, base).value.size == size
            && (if Has(c.flags, XMEM_COMMIT)
                then && LiveAt(o.k.slots, base).value.committed
                     && LiveAt(o.k.slots, base).value.protection == SparseProtectionFromXPage(c.protect)
                     && o.k.pages == Covering(k.pages, base / PAGE, size / PAGE, SparseProtectionFromXPage(c.protect))
                else o.k.pages == k.pages)
            && (forall other :: other != base ==> LiveAt(o.k.slots, other) == LiveAt(k.slots, other))
  {
    hide Has, GoodSlots, PagesRight, GoodArena, Commit, SparseProtectionFromXPage, Allows, LiveAt;
    var o := Finish(k, i, k.slots[i].value.base, size, c);
    if Has(c.flags, XMEM_COMMIT) {
      CommitKeeps(k, i, c.protect, foreign);
    }
    FinishKeeps(k, i, k.slots[i].value.base, size, c, foreign);
    assert o.k.slots[i].Some? && o.k.slots == k.slots[i := o.k.slots[i]];
    LiveAtSlot(o.k.slots, i);
    forall other | other != k.slots[i].value.base
      ensures LiveAt(o.k.slots, other) == LiveAt(k.slots, other)
    {
      LiveAfterUpdate(k.slots, i, o.k.slots[i], other);
    }
  }

  /** A call that is refused before it does anything. */
  predicate Malformed(k: Kernel, c: AllocateCall) {
    || !Readable(k.pages, c.basePtr, c.sizePtr, c.debug) || !GoodFlags(c.flags)
    || RoundUpGuestSize(c.size, PageSize(c.flags)).None?
  }

  /** A well-formed call that finds memory takes effect, whether or not its answer can be written. */
  ghost predicate TakesEffect(k: Kernel, c: AllocateCall, base: nat) {
    var o := Allocate(k, c);
    && Gives(k, c, o.k, base)
    && (if Writable(o.k, c)
        then o.status.Success? && o.base == base && Some(o.size) == RoundUpGuestSize(c.size, PageSize(c.flags))
        else o.status.InvalidParameter?)
  }

  lemma EffectGives(k: Kernel, c: AllocateCall, foreign: Pages) returns (base: nat)
    requires Inv(k, foreign)
    ensures Malformed(k, c) || Allocate(k, c).status.NoMemory? || TakesEffect(k, c, base)
    ensures !Malformed(k, c) && !Allocate(k, c).status.NoMemory? ==>
              var r := Locate(k, WantedBase(c), RoundUpGuestSize(c.size, PageSize(c.flags)).value, PageSize(c.flags),
                              Has(c.flags, XMEM_TOP_DOWN));
              r.Found? && base == r.base
  {
    hide Has, GoodSlots, PagesRight, GoodArena, Locate, Finish, Readable, RoundUpGuestSize, Aligned, LiveAt, Covering,
      Writable, GoodFlags;
    base := 0;
    if !Malformed(k, c) && !Allocate(k, c).status.NoMemory? {
      var pageSize := PageSize(c.flags);
      var size := RoundUpGuestSize(c.size, pageSize).value;
      RoundedSize(c.size, pageSize);
      LocateRight(k, WantedBase(c), size, pageSize, Has(c.flags, XMEM_TOP_DOWN), foreign);
      var r := Locate(k, WantedBase(c), size, pageSize, Has(c.flags, XMEM_TOP_DOWN));
      base := r.base;
      FinishGives(r.k, r.slot, size, c, foreign);
      forall other | other != r.base
        ensures LiveAt(r.k.slots, other) == LiveAt(k.slots, other)
      {
        if k.slots[r.slot].None? {
          LiveAfterUpdate(k.slots, r.slot, r.k.slots[r.slot], other);
        }
      }
    }
  }

  /** What a successful call has given is at the base and of the size it answers. */
  lemma AllocateGives(k: Kernel, c: AllocateCall, foreign: Pages)
    requires Inv(k, foreign)
    ensures var o := Allocate(k, c);
            o.status.Success? ==> Gives(k, c, o.k, o.base) && LiveAt(o.k.slots, o.base).value.size == o.size
  {
    hide Inv, Gives, Readable, GoodFlags, RoundUpGuestSize, Locate, Finish, Writable;
    if Allocate(k, c).status.Success? {
      var base := EffectGives(k, c, foreign);
      assert Gives(k, c, Allocate(k, c).k, base);
      GivenSize(k, c, Allocate(k, c).k, base);
    }
  }

  lemma GivenSize(k: Kernel, c: AllocateCall, k': Kernel, base: nat)
    requires Gives(k, c, k', base)
    ensures LiveAt(k'.slots, base).Some?
    ensures Some(LiveAt(k'.slots, base).value.size) == RoundUpGuestSize(c.size, PageSize(c.flags))
  {
  }

  /**
   An invalid parameter means that the call was malformed and nothing happened, or that everything
   happened, at this base, and the caller's words could not be written.
   */
  lemma InvalidAllocation(k: Kernel, c: AllocateCall, foreign: Pages) returns (base: nat)
    requires Inv(k, foreign)
    ensures var o := Allocate(k, c);
            o.status.InvalidParameter? ==>
              if Malformed(k, c) then o.k == k else Gives(k, c, o.k, base) && !Writable(o.k, c)
  {
    hide Inv, Gives, Readable, GoodFlags, RoundUpGuestSize, Locate, Finish, Writable;
    base := 0;
    if !Malformed(k, c) && !Allocate(k, c).status.NoMemory? {
      base := EffectGives(k, c, foreign);
    }
  }

  /** A commit of a reservation made earlier, over a page that somebody else has mapped. */
  predicate DropsReservation(k: Kernel, c: AllocateCall) {
    && Has(c.flags, XMEM_COMMIT)
    && RoundUpGuestSize(c.size, PageSize(c.flags)).Some?
    && WantedBase(c) != 0
    && var size := RoundUpGuestSize(c.size, PageSize(c.flags)).value;
    && var i := First(k.slots, Exactly(WantedBase(c), size), 0);
    && i.Some? && !k.slots[i.value].value.committed
    && !NoneMapped(k.pages, WantedBase(c) / PAGE, size / PAGE)
  }

  /**
   A call refused for want of memory maps nothing and leaves every record as it was, except that
   a reservation whose commit is refused is gone.
   */
  lemma RefusalKeeps(k: Kernel, c: AllocateCall, foreign: Pages)
    requires Inv(k, foreign)
    ensures Allocate(k, c).status.NoMemory? ==>
              && Allocate(k, c).k.pages == k.pages
              && (Allocate(k, c).k.slots == k.slots <==> !DropsReservation(k, c))
  {
    hide GoodSlots, PagesRight, GoodArena, Commit, Readable, RoundUpGuestSize, Aligned, Has, NoneMapped, Allows, GoodFlags,
      SparseProtectionFromXPage;
    if Allocate(k, c).status.NoMemory? {
      var pageSize := PageSize(c.flags);
      var size := RoundUpGuestSize(c.size, pageSize).value;
      RoundedSize(c.size, pageSize);
      LocateRight(k, WantedBase(c), size, pageSize, Has(c.flags, XMEM_TOP_DOWN), foreign);
      var r := Locate(k, WantedBase(c), size, pageSize, Has(c.flags, XMEM_TOP_DOWN));
      if r.Found? {
        CommitKeeps(r.k, r.slot, c.protect, foreign);
      }
    }
  }

  // ---- one free ----

  lemma ReleaseRight(k: Kernel, i: nat, c: FreeCall, foreign: Pages)
    requires Inv(k, foreign) && i < |k.slots| && k.slots[i].Some?
    ensures var a := k.slots[i].value;
            var o := Release(k, i, c);
            && Inv(o.k, foreign) && o.k.slots == k.slots[i := None]
            && o.k.pages == (if a.committed then Without(k.pages, a.base / PAGE, a.size / PAGE) else k.pages)
  {
    hide GoodSlots, PagesRight, GoodArena, GoodAllocation, AllMapped, Allows;
    var a := k.slots[i].value;
    OneGood(k.slots, i);
    PageAligned(a);
    ReplacedKeepsGood(k.slots, i, None);
    if a.committed {
      OwnedAreMapped(k.slots, i, k.pages, foreign);
      UnmappedKeepsPages(k.slots, i, None, k.pages, foreign);
    } else {
      UncommittedKeepsPages(k.slots, i, None, k.pages, foreign);
    }
  }

  /** The answer of a free that took effect: the base and the whole size, if the words can be written then. */
  predicate Answers(o: Outcome, c: FreeCall, size: nat) {
    if Allows(o.k.pages, c.basePtr, GUEST_WRITE) && Allows(o.k.pages, c.sizePtr, GUEST_WRITE)
    then o.status.Success? && o.base == c.base && o.size == size
    else o.status.InvalidParameter?
  }

  lemma DecommitRight(k: Kernel, i: nat, c: FreeCall, foreign: Pages)
    requires Inv(k, foreign) && i < |k.slots| && k.slots[i].Some?
    ensures var a := k.slots[i].value;
            var o := Decommit(k, i, c);
            && Inv(o.k, foreign)
            && (if RoundUpGuestSize(c.size, a.pageSize) != Some(a.size) then o == Outcome(k, Unsuccessful, 0, 0)
                else if !a.committed then o.k == k && Answers(o, c, a.size)
                else && Answers(o, c, a.size)
                     && o.k.slots == k.slots[i := Some(a.(committed := false, protection := 0))]
                     && o.k.pages == Without(k.pages, a.base / PAGE, a.size / PAGE))
  {
    hide GoodSlots, PagesRight, GoodArena, GoodAllocation, AllMapped, Allows, RoundUpGuestSize;
    var a := k.slots[i].value;
    var s := Some(a.(committed := false, protection := 0));
    OneGood(k.slots, i);
    PageAligned(a);
    ReplacedKeepsGood(k.slots, i, s);
    if a.committed {
      OwnedAreMapped(k.slots, i, k.pages, foreign);
      UnmappedKeepsPages(k.slots, i, s, k.pages, foreign);
    }
  }

  /** Every free call, whatever its arguments and however it ends. */
  lemma FreeKeeps(k: Kernel, c: FreeCall, foreign: Pages)
    requires Inv(k, foreign)
    ensures Inv(Free(k, c).k, foreign)
  {
    hide GoodSlots, PagesRight, GoodArena, Release, Decommit, Readable;
    var i := First(k.slots, Based(c.base), 0);
    if i.Some? {
      ReleaseRight(k, i.value, c, foreign);
      DecommitRight(k, i.value, c, foreign);
    }
  }

  ghost predicate Releases(k: Kernel, c: FreeCall)
    requires LiveAt(k.slots, c.base).Some?
  {
    var a := LiveAt(k.slots, c.base).value;
    var o := Free(k, c);
    && LiveAt(o.k.slots, c.base).None?
    && (forall other :: other != c.base ==> LiveAt(o.k.slots, other) == LiveAt(k.slots, other))
    && o.k.pages == (if a.committed then Without(k.pages, a.base / PAGE, a.size / PAGE) else k.pages)
    && Answers(o, c, a.size)
  }

  lemma LiveIsFound(slots: seq<Slot>, base: nat)
    requires LiveAt(slots, base).Some?
    ensures First(slots, Based(base), 0).Some?
    ensures LiveAt(slots, base).value == slots[First(slots, Based(base), 0).value].value
  {
  }

  lemma GoneAfterUpdate(slots: seq<Slot>, i: nat, base: nat)
    requires GoodSlots(slots) && i < |slots| && slots[i].Some? && slots[i].value.base == base
    ensures LiveAt(slots[i := None], base).None?
  {
    hide GoodSlots;
    var slots' := slots[i := None];
    forall j | 0 <= j < |slots'|
      ensures !Hit(slots'[j], Based(base))
    {
      if j != i && slots[j].Some? {
        BasesDiffer(slots, i, j);
      }
    }
  }

  /**
   A free of any type but decommit, given a live base: the record is gone, its pages with it, and
   everything else stays, even when the answer can no longer be written back.
   */
  lemma FreeReleases(k: Kernel, c: FreeCall, foreign: Pages)
    requires Inv(k, foreign) && c.freeType != 0x4000
    ensures Readable(k.pages, c.basePtr, c.sizePtr, c.debug) && LiveAt(k.slots, c.base).Some? ==> Releases(k, c)
  {
    hide GoodSlots, PagesRight, GoodArena, Readable, Allows, LiveAt, AllMapped;
    if Readable(k.pages, c.basePtr, c.sizePtr, c.debug) && LiveAt(k.slots, c.base).Some? {
      LiveIsFound(k.slots, c.base);
      var i := First(k.slots, Based(c.base), 0).value;
      LiveAtSlot(k.slots, i);
      ReleaseRight(k, i, c, foreign);
      OneGood(k.slots, i);
      PageAligned(k.slots[i].value);
      if k.slots[i].value.committed {
        OwnedAreMapped(k.slots, i, k.pages, foreign);
      }
      GoneAfterUpdate(k.slots, i, c.base);
      forall other | other != c.base
        ensures LiveAt(k.slots[i := None], other) == LiveAt(k.slots, other)
      {
        LiveAfterUpdate(k.slots, i, None, other);
      }
    }
  }

  /** A free of type 0x4000, given a live base, is a decommit of the allocation there. */
  lemma FreeDecommits(k: Kernel, c: FreeCall)
    requires c.freeType == 0x4000 && c.base != 0 && Readable(k.pages, c.basePtr, c.sizePtr, c.debug)
    requires LiveAt(k.slots, c.base).Some?
    ensures exists i ::
              && 0 <= i < |k.slots| && k.slots[i].Some? && k.slots[i].value == LiveAt(k.slots, c.base).value
              && Free(k, c) == Decommit(k, i, c)
  {
    hide Decommit, Release, Readable;
    LiveIsFound(k.slots, c.base);
    var i := First(k.slots, Based(c.base), 0).value;
    assert k.slots[i].Some? && Free(k, c) == Decommit(k, i, c);
  }

  /**
   A free of a base that nothing live has, or with pointers that cannot be read, changes nothing. Its
   answer tells base 0, any other address of the two heaps, and an address outside them apart.
   */
  lemma UnknownFreeKeeps(k: Kernel, c: FreeCall)
    ensures !Readable(k.pages, c.basePtr, c.sizePtr, c.debug) ==> Free(k, c) == Outcome(k, InvalidParameter, 0, 0)
    ensures Readable(k.pages, c.basePtr, c.sizePtr, c.debug) && (c.base == 0 || LiveAt(k.slots, c.base).None?) ==>
              Free(k, c) == Outcome(k, if c.base == 0 then NotAllocated
                                       else if 0x1_0000 <= c.base < 0x8000_0000 then Unsuccessful
                                       else InvalidParameter, 0, 0)
  {
    hide Release, Decommit, Readable;
  }

  /**
   Of every protection word: nothing outside the table's three bits, so no mapping is refused for it;
   writing only together with reading; and each right exactly when some flag of the word gives it.
   */
  lemma ProtectionOfFlags(protect: bv32)
    ensures var p := SparseProtectionFromXPage(protect);
            && p & !VALID_PROTECTION == 0
            && (p & GUEST_WRITE != 0 ==> p & GUEST_READ != 0)
            && (p & GUEST_READ != 0 <==> protect & 0xEE != 0)
            && (p & GUEST_WRITE != 0 <==> protect & 0xCC != 0)
            && (p & GUEST_EXECUTE != 0 <==> protect & 0xF0 != 0)
            && (p == 0 <==> protect & 0xFE == 0)
  {
  }
}
