/**
 Whole runs of allocate, free and reset: the invariant, what is left when everything has been
 freed, and no automatic placement ever overlapping an earlier one since the last reset.
 */
module AllocatorHistory {
  import opened Options
  import opened SparsePages
  import opened VirtualAllocations
  import opened AllocatorInvariant
  import opened AllocatorRuns

  datatype Step = DoAllocate(a: AllocateCall) | DoFree(f: FreeCall) | DoReset

  function Next(k: Kernel, step: Step): Kernel {
    match step
    case DoAllocate(c) => Allocate(k, c).k
    case DoFree(c) => Free(k, c).k
    case DoReset => Reset(k)
  }

  // ---- reset ----

  /** The records with the first n of them gone. */
  function Dropped(slots: seq<Slot>, n: nat): (r: seq<Slot>)
    requires n <= |slots|
    ensures |r| == |slots|
  {
    if n == 0 then slots else Dropped(slots, n - 1)[n - 1 := None]
  }

  lemma {:induction false} DroppedAt(slots: seq<Slot>, n: nat)
    requires n <= |slots|
    ensures forall i :: 0 <= i < |slots| ==> Dropped(slots, n)[i] == if i < n then None else slots[i]
  {
    if n > 0 {
      DroppedAt(slots, n - 1);
    }
  }

  lemma {:induction false} UnmappedRight(slots: seq<Slot>, pages: Pages, foreign: Pages, n: nat)
    requires GoodSlots(slots) && PagesRight(slots, pages, foreign) && n <= |slots|
    ensures GoodSlots(Dropped(slots, n)) && PagesRight(Dropped(slots, n), Unmapped(slots, pages, n), foreign)
  {
    hide GoodSlots, PagesRight, GoodAllocation, AllMapped;
    if n > 0 {
      UnmappedRight(slots, pages, foreign, n - 1);
      DroppedAt(slots, n - 1);
      var left := Dropped(slots, n - 1);
      var rest := Unmapped(slots, pages, n - 1);
      ReplacedKeepsGood(left, n - 1, None);
      if left[n - 1].Some? && left[n - 1].value.committed {
        OneGood(left, n - 1);
        PageAligned(left[n - 1].value);
        OwnedAreMapped(left, n - 1, rest, foreign);
        UnmappedKeepsPages(left, n - 1, None, rest, foreign);
      } else {
        UncommittedKeepsPages(left, n - 1, None, rest, foreign);
      }
    }
  }

  /** With no record left, the page map is what it would be without the allocator. */
  lemma NothingOwned(slots: seq<Slot>, pages: Pages, foreign: Pages)
    requires PagesRight(slots, pages, foreign)
    requires forall i :: 0 <= i < |slots| ==> slots[i].None? || !slots[i].value.committed
    ensures pages == foreign
  {
    forall p
      ensures p in pages <==> p in foreign
    {
      assert !Owned(slots, p);
    }
  }

  lemma ResetRestores(k: Kernel, foreign: Pages)
    requires Inv(k, foreign)
    ensures Inv(Reset(k), foreign) && Reset(k).pages == foreign
  {
    hide GoodSlots, PagesRight;
    var n := |k.slots|;
    UnmappedRight(k.slots, k.pages, foreign, n);
    DroppedAt(k.slots, n);
    SlotCount(k.slots);
    assert Dropped(k.slots, n) == NoSlots(MAX_ALLOCATIONS);
    NothingOwned(NoSlots(MAX_ALLOCATIONS), Unmapped(k.slots, k.pages, n), foreign);
  }

  // ---- runs ----

  lemma NextKeeps(k: Kernel, step: Step, foreign: Pages)
    requires Inv(k, foreign)
    ensures Inv(Next(k, step), foreign)
  {
    hide GoodSlots, PagesRight, GoodArena, Allocate, Free, Reset;
    match step
    case DoAllocate(c) => AllocateKeeps(k, c, foreign);
    case DoFree(c) => FreeKeeps(k, c, foreign);
    case DoReset => ResetRestores(k, foreign);
  }

  function Run(k: Kernel, steps: seq<Step>): Kernel
    decreases |steps|
  {
    if steps == [] then k else Run(Next(k, steps[0]), steps[1..])
  }

  /** The kernel as it starts: nothing allocated, some pages mapped by others. */
  function Boot(foreign: Pages): Kernel {
    Kernel(NoSlots(MAX_ALLOCATIONS), Arena(SMALL_BEGIN, SMALL_END), Arena(LARGE_BEGIN, LARGE_END), foreign)
  }

  lemma BootRight(foreign: Pages)
    ensures Inv(Boot(foreign), foreign)
  {
    var k := Boot(foreign);
    forall p
      ensures !Owned(k.slots, p)
    {
    }
  }

  lemma {:induction false} RunKeeps(k: Kernel, steps: seq<Step>, foreign: Pages)
    requires Inv(k, foreign)
    ensures Inv(Run(k, steps), foreign)
    decreases |steps|
  {
    hide Inv;
    if steps != [] {
      NextKeeps(k, steps[0], foreign);
      RunKeeps(Next(k, steps[0]), steps[1..], foreign);
    }
  }

  predicate NothingCommitted(k: Kernel) {
    forall i :: 0 <= i < |k.slots| && k.slots[i].Some? ==> !k.slots[i].value.committed
  }

  /** However a run got there, once nothing is committed the page map is the one it started from. */
  lemma FreeingEverythingRestores(foreign: Pages, steps: seq<Step>)
    requires NothingCommitted(Run(Boot(foreign), steps))
    ensures Run(Boot(foreign), steps).pages == foreign
  {
    hide GoodSlots, PagesRight, GoodArena;
    BootRight(foreign);
    RunKeeps(Boot(foreign), steps, foreign);
    var k := Run(Boot(foreign), steps);
    NothingOwned(k.slots, k.pages, foreign);
  }

  // ---- automatic placements ----

  datatype Range = Range(base: nat, size: nat, pageSize: nat)

  /** The range a call cuts from an arena, if it gets that far. */
  function Placement(k: Kernel, c: AllocateCall): Option<Range> {
    var pageSize := PageSize(c.flags);
    if !Readable(k.pages, c.basePtr, c.sizePtr, c.debug) || !GoodFlags(c.flags)
       || RoundUpGuestSize(c.size, pageSize).None? || WantedBase(c) != 0 then None
    else
      var size := RoundUpGuestSize(c.size, pageSize).value;
      match Bump(k.slots, ArenaOf(k, pageSize), Has(c.flags, XMEM_TOP_DOWN), size, pageSize)
      case None => None
      case Some((_, base)) => Some(Range(base, size, pageSize))
  }

  /** What a successful automatic allocation answers is the range it cut. */
  lemma AnsweredRange(k: Kernel, c: AllocateCall, foreign: Pages)
    requires Inv(k, foreign) && WantedBase(c) == 0
    ensures Allocate(k, c).status.Success? ==>
              Placement(k, c) == Some(Range(Allocate(k, c).base, Allocate(k, c).size, PageSize(c.flags)))
  {
    hide GoodSlots, PagesRight, Readable, Has, GoodFlags, Commit, SparseProtectionFromXPage, Allows, RoundUpGuestSize;
  }

  ghost predicate OutsideGap(k: Kernel, r: Range) {
    var a := ArenaOf(k, r.pageSize);
    && IsPageSize(r.pageSize) && r.size > 0
    && (if r.pageSize == LARGE_PAGE then LARGE_BEGIN <= r.base && r.base + r.size <= LARGE_END
        else SMALL_BEGIN <= r.base && r.base + r.size <= SMALL_END)
    && (r.base + r.size <= a.bottom || a.top <= r.base)
  }

  /** Placements since the last reset: none in the gap that is left, no two overlapping. */
  ghost predicate GoodHistory(k: Kernel, h: seq<Range>) {
    && (forall i :: 0 <= i < |h| ==> OutsideGap(k, h[i]))
    && (forall i, j :: 0 <= i < j < |h| ==> !Overlap(h[i].base, h[i].size, h[j].base, h[j].size))
  }

  function Recorded(k: Kernel, h: seq<Range>, step: Step): seq<Range> {
    match step
    case DoReset => []
    case DoFree(_) => h
    case DoAllocate(c) => if Placement(k, c).Some? then h + [Placement(k, c).value] else h
  }

  /** Bottom has only grown and top only shrunk. */
  ghost predicate Narrower(a: Arena, a': Arena) {
    a.bottom <= a'.bottom <= a'.top <= a.top
  }

  ghost predicate BothNarrower(k: Kernel, k': Kernel) {
    Narrower(k.small, k'.small) && Narrower(k.large, k'.large)
  }

  lemma CommitKeepsArenas(k: Kernel, i: nat, protection: bv32)
    requires i < |k.slots| && k.slots[i].Some?
    ensures Commit(k, i, protection).1.small == k.small && Commit(k, i, protection).1.large == k.large
  {
    hide Protect, Map;
  }

  lemma FinishKeepsArenas(k: Kernel, i: nat, base: nat, size: nat, c: AllocateCall)
    requires i < |k.slots| && k.slots[i].Some?
    ensures Finish(k, i, base, size, c).k.small == k.small && Finish(k, i, base, size, c).k.large == k.large
  {
    hide Commit, SparseProtectionFromXPage, Has, Allows;
    CommitKeepsArenas(k, i, SparseProtectionFromXPage(c.protect));
  }

  /** The arenas after a call: cut by its placement if it has one, otherwise as they were. */
  lemma AllocateCuts(k: Kernel, c: AllocateCall)
    ensures var pageSize := PageSize(c.flags);
            var k' := Allocate(k, c).k;
            if Placement(k, c).None? then k'.small == k.small && k'.large == k.large
            else
              var b := Bump(k.slots, ArenaOf(k, pageSize), Has(c.flags, XMEM_TOP_DOWN), Placement(k, c).value.size, pageSize);
              && b.Some? && b.value.1 == Placement(k, c).value.base
              && k'.small == WithArena(k, pageSize, b.value.0).small && k'.large == WithArena(k, pageSize, b.value.0).large
  {
    hide Readable, Has, GoodFlags, RoundUpGuestSize, Bump, Available, FixedAllowed, Finish, PageSize;
    var pageSize := PageSize(c.flags);
    if RoundUpGuestSize(c.size, pageSize).Some? {
      var size := RoundUpGuestSize(c.size, pageSize).value;
      var r := Locate(k, WantedBase(c), size, pageSize, Has(c.flags, XMEM_TOP_DOWN));
      if r.Found? {
        FinishKeepsArenas(r.k, r.slot, r.base, size, c);
      }
    }
  }

  lemma HistoryStays(k: Kernel, k': Kernel, h: seq<Range>)
    requires GoodHistory(k, h) && BothNarrower(k, k')
    ensures GoodHistory(k', h)
  {
    forall i | 0 <= i < |h|
      ensures OutsideGap(k', h[i])
    {
      assert OutsideGap(k, h[i]);
    }
  }

  lemma HistoryGrows(k: Kernel, k': Kernel, h: seq<Range>, r: Range)
    requires GoodHistory(k, h) && OutsideGap(k', r) && BothNarrower(k, k')
    requires ArenaOf(k, r.pageSize).bottom <= r.base && r.base + r.size <= ArenaOf(k, r.pageSize).top
    ensures GoodHistory(k', h + [r])
  {
    HistoryStays(k, k', h);
    forall i | 0 <= i < |h|
      ensures !Overlap(h[i].base, h[i].size, r.base, r.size)
    {
      assert OutsideGap(k, h[i]);
    }
  }

  /** One allocation narrows the arenas, if anything; its placement is cut from the gap and lies outside the one left. */
  lemma AllocateNarrows(k: Kernel, c: AllocateCall, foreign: Pages)
    requires Inv(k, foreign)
    ensures BothNarrower(k, Allocate(k, c).k)
    ensures Placement(k, c).Some? ==>
              var r := Placement(k, c).value;
              && ArenaOf(k, r.pageSize).bottom <= r.base && r.base + r.size <= ArenaOf(k, r.pageSize).top
              && OutsideGap(Allocate(k, c).k, r)
  {
    hide GoodSlots, PagesRight, Bump, Allocate, Readable, RoundUpGuestSize, Has, GoodFlags, Available, MaskDown;
    AllocateCuts(k, c);
    if Placement(k, c).Some? {
      var r := Placement(k, c).value;
      RoundedSize(c.size, r.pageSize);
      var large := r.pageSize == LARGE_PAGE;
      BumpPlaces(k.slots, ArenaOf(k, r.pageSize), if large then LARGE_BEGIN else SMALL_BEGIN,
                 if large then LARGE_END else SMALL_END, Has(c.flags, XMEM_TOP_DOWN), r.size, r.pageSize);
    }
  }

  /** So it is apart from every earlier one. */
  lemma AllocateKeepsHistory(k: Kernel, h: seq<Range>, c: AllocateCall, foreign: Pages)
    requires Inv(k, foreign) && GoodHistory(k, h)
    ensures GoodHistory(Allocate(k, c).k, Recorded(k, h, DoAllocate(c)))
  {
    hide Inv, Allocate, Placement, OutsideGap, Overlap, GoodHistory;
    AllocateNarrows(k, c, foreign);
    if Placement(k, c).Some? {
      HistoryGrows(k, Allocate(k, c).k, h, Placement(k, c).value);
    } else {
      HistoryStays(k, Allocate(k, c).k, h);
    }
  }

  lemma FreeKeepsArenas(k: Kernel, c: FreeCall)
    ensures Free(k, c).k.small == k.small && Free(k, c).k.large == k.large
  {
    hide Unmap, Allows, RoundUpGuestSize, Readable;
  }

  lemma NextNarrows(k: Kernel, step: Step, foreign: Pages)
    requires Inv(k, foreign) && !step.DoReset?
    ensures BothNarrower(k, Next(k, step))
  {
    hide GoodSlots, PagesRight, Allocate, Free;
    match step
    case DoAllocate(c) => AllocateNarrows(k, c, foreign);
    case DoFree(c) => FreeKeepsArenas(k, c);
  }

  predicate HasReset(steps: seq<Step>) {
    exists i :: 0 <= i < |steps| && steps[i].DoReset?
  }

  /** Without a reset nothing widens an arena again: whatever the calls, bottom only grows and top only shrinks. */
  lemma {:induction false} RunNarrows(k: Kernel, steps: seq<Step>, foreign: Pages)
    requires Inv(k, foreign) && !HasReset(steps)
    ensures BothNarrower(k, Run(k, steps))
    decreases |steps|
  {
    hide GoodSlots, PagesRight, Next;
    if steps != [] {
      NextNarrows(k, steps[0], foreign);
      NextKeeps(k, steps[0], foreign);
      RunNarrows(Next(k, steps[0]), steps[1..], foreign);
    }
  }

  lemma NextKeepsHistory(k: Kernel, h: seq<Range>, step: Step, foreign: Pages)
    requires Inv(k, foreign) && GoodHistory(k, h)
    ensures GoodHistory(Next(k, step), Recorded(k, h, step))
  {
    hide Inv, Allocate, Free, OutsideGap, Overlap;
    match step
    case DoAllocate(c) => AllocateKeepsHistory(k, h, c, foreign);
    case DoFree(c) => NextNarrows(k, step, foreign); HistoryStays(k, Free(k, c).k, h);
    case DoReset =>
  }

  /** The placements since the last reset of a run. */
  function Placements(k: Kernel, h: seq<Range>, steps: seq<Step>): seq<Range>
    decreases |steps|
  {
    if steps == [] then h else Placements(Next(k, steps[0]), Recorded(k, h, steps[0]), steps[1..])
  }

  /** Between resets no two automatic placements overlap, even when the earlier one was freed. */
  lemma {:induction false} PlacementsNeverOverlap(k: Kernel, h: seq<Range>, steps: seq<Step>, foreign: Pages)
    requires Inv(k, foreign) && GoodHistory(k, h)
    ensures GoodHistory(Run(k, steps), Placements(k, h, steps))
    decreases |steps|
  {
    hide Inv, GoodHistory, Next, Recorded;
    if steps != [] {
      NextKeeps(k, steps[0], foreign);
      NextKeepsHistory(k, h, steps[0], foreign);
      PlacementsNeverOverlap(Next(k, steps[0]), Recorded(k, h, steps[0]), steps[1..], foreign);
    }
  }

  /** From the start: any run at all. */
  lemma RunsNeverReplace(foreign: Pages, steps: seq<Step>)
    ensures GoodHistory(Run(Boot(foreign), steps), Placements(Boot(foreign), [], steps))
  {
    BootRight(foreign);
    PlacementsNeverOverlap(Boot(foreign), [], steps, foreign);
  }
}
