/**
 Where an allocation goes and exactly when there is no memory for it, said in addresses and flag bits:
 the page size, the rounding and the heaps of the source written out.
 */
module AllocatorPlacement {
  import opened Options
  import opened SparsePages
  import opened VirtualAllocations
  import opened AllocatorInvariant
  import opened AllocatorRuns
  import opened AllocatorHistory

  // ---- the request ----

  predicate IsLarge(c: AllocateCall) {
    c.flags & 0x2000_0000 != 0
  }

  predicate FromTheTop(c: AllocateCall) {
    c.flags & 0x10_0000 != 0
  }

  predicate Commits(c: AllocateCall) {
    c.flags & 0x1000 != 0
  }

  /** The size, up to whole pages of 64 KiB or of 4 KiB. */
  function WholePages(c: AllocateCall): nat {
    if IsLarge(c) then (c.size + 0xFFFF) / 0x1_0000 * 0x1_0000 else (c.size + 0xFFF) / 0x1000 * 0x1000
  }

  /** The base, down to a page. */
  function BasePage(c: AllocateCall): nat {
    if IsLarge(c) then c.base / 0x1_0000 * 0x1_0000 else c.base / 0x1000 * 0x1000
  }

  lemma FlagBits(flags: bv32)
    ensures Has(flags, XMEM_TOP_DOWN) <==> flags & 0x10_0000 != 0
    ensures Has(flags, XMEM_COMMIT) <==> flags & 0x1000 != 0
    ensures Has(flags, XMEM_LARGE_PAGES) <==> flags & 0x2000_0000 != 0
    ensures GoodFlags(flags) <==> flags & 0x3000 != 0 && flags & 0x8_0000 == 0
  {
    BothBits();
  }

  lemma BothBits()
    ensures XMEM_COMMIT | XMEM_RESERVE == 0x3000
  {
  }

  lemma SizeAndBase(c: AllocateCall)
    ensures PageSize(c.flags) == (if IsLarge(c) then 0x1_0000 else 0x1000) && WantedBase(c) == BasePage(c)
    ensures Has(c.flags, XMEM_TOP_DOWN) <==> FromTheTop(c)
    ensures Has(c.flags, XMEM_COMMIT) <==> Commits(c)
    ensures RoundUpGuestSize(c.size, PageSize(c.flags))
            == if c.size == 0 || WholePages(c) >= 0x1_0000_0000 then None else Some(WholePages(c))
  {
    FlagBits(c.flags);
    hide Has;
  }

  /** What a call must get right before anything is looked for. */
  lemma MalformedIff(k: Kernel, c: AllocateCall)
    ensures Malformed(k, c) <==>
              || c.basePtr == 0 || c.sizePtr == 0 || c.debug != 0
              || !Allows(k.pages, c.basePtr, GUEST_READ) || !Allows(k.pages, c.sizePtr, GUEST_READ)
              || c.flags & 0x3000 == 0 || c.flags & 0x8_0000 != 0
              || c.size == 0 || WholePages(c) >= 0x1_0000_0000
  {
    SizeAndBase(c);
    FlagBits(c.flags);
    hide Has, GoodFlags, RoundUpGuestSize, PageSize, Allows, WholePages;
  }

  // ---- what it meets ----

  /** No live allocation shares an address with the range. */
  ghost predicate Clear(slots: seq<Slot>, base: nat, size: nat) {
    forall i :: 0 <= i < |slots| && slots[i].Some? ==>
      base + size <= slots[i].value.base || slots[i].value.base + slots[i].value.size <= base
  }

  ghost predicate HasRecord(slots: seq<Slot>) {
    exists i :: 0 <= i < |slots| && slots[i].None?
  }

  /** Somebody else has mapped one of these pages. */
  ghost predicate MeetsForeign(foreign: Pages, base: nat, size: nat) {
    exists p :: p in foreign && base <= p * 0x1000 < base + size
  }

  /** The arena a request is cut from, and where. */
  function ArenaFor(k: Kernel, c: AllocateCall): Arena {
    if IsLarge(c) then k.large else k.small
  }

  function CutAt(k: Kernel, c: AllocateCall): nat
    requires ArenaFor(k, c).bottom + WholePages(c) <= ArenaFor(k, c).top
  {
    if FromTheTop(c) then ArenaFor(k, c).top - WholePages(c) else ArenaFor(k, c).bottom
  }

  /** An automatic request finds its place. */
  ghost predicate FindsPlace(k: Kernel, c: AllocateCall) {
    && ArenaFor(k, c).bottom + WholePages(c) <= ArenaFor(k, c).top
    && Clear(k.slots, CutAt(k, c), WholePages(c))
  }

  /** A request for a base may have it: 64 KiB to 1 GiB with small pages, 1 GiB to 2 GiB with large ones. */
  ghost predicate MayHave(k: Kernel, c: AllocateCall) {
    && (if IsLarge(c) then 0x4000_0000 <= BasePage(c) && BasePage(c) + WholePages(c) <= 0x8000_0000
        else 0x1_0000 <= BasePage(c) && BasePage(c) + WholePages(c) <= 0x4000_0000)
    && Clear(k.slots, BasePage(c), WholePages(c))
  }

  /** The record of exactly the range asked for. */
  ghost predicate IsReserved(k: Kernel, c: AllocateCall, i: nat) {
    && i < |k.slots| && k.slots[i].Some?
    && k.slots[i].value.base == BasePage(c) && k.slots[i].value.size == WholePages(c)
  }

  /** Why a well-formed request is refused. */
  ghost predicate NoMemoryFor(k: Kernel, c: AllocateCall, foreign: Pages) {
    if BasePage(c) == 0 then
      || !FindsPlace(k, c) || !HasRecord(k.slots)
      || (Commits(c) && MeetsForeign(foreign, CutAt(k, c), WholePages(c)))
    else if exists i: nat :: IsReserved(k, c, i) then
      && Commits(c) && MeetsForeign(foreign, BasePage(c), WholePages(c))
      && exists i: nat :: IsReserved(k, c, i) && !k.slots[i].value.committed
    else
      || !MayHave(k, c) || !HasRecord(k.slots)
      || (Commits(c) && MeetsForeign(foreign, BasePage(c), WholePages(c)))
  }

  // ---- what the searches find ----

  lemma ClearIsAvailable(slots: seq<Slot>, base: nat, size: nat)
    requires size > 0 && base + size <= 0x1_0000_0000
    ensures Available(slots, base, size) <==> Clear(slots, base, size)
  {
  }

  lemma FirstUnused(slots: seq<Slot>)
    ensures First(slots, Unused, 0).Some? <==> HasRecord(slots)
  {
  }

  lemma FirstExactly(k: Kernel, c: AllocateCall)
    ensures var i := First(k.slots, Exactly(BasePage(c), WholePages(c)), 0);
            if i.Some? then IsReserved(k, c, i.value) else forall j: nat :: !IsReserved(k, c, j)
  {
    hide BasePage, WholePages;
    var q := Exactly(BasePage(c), WholePages(c));
    forall j: nat | IsReserved(k, c, j)
      ensures Hit(k.slots[j], q)
    {
    }
  }

  lemma OnePage(p: nat, base: nat, size: nat)
    requires base % 0x1000 == 0 && size % 0x1000 == 0
    ensures base <= p * 0x1000 < base + size <==> InRange(p, base / PAGE, size / PAGE)
  {
    assert base == base / 0x1000 * 0x1000 && size == size / 0x1000 * 0x1000;
  }

  /** Only somebody else's pages can be in the way of a range that meets no committed allocation. */
  lemma ForeignInTheWay(k: Kernel, base: nat, size: nat, foreign: Pages)
    requires Inv(k, foreign) && base % 0x1000 == 0 && size % 0x1000 == 0
    requires forall i :: 0 <= i < |k.slots| && k.slots[i].Some? && k.slots[i].value.committed ==>
               base + size <= k.slots[i].value.base || k.slots[i].value.base + k.slots[i].value.size <= base
    ensures NoneMapped(k.pages, base / PAGE, size / PAGE) <==> !MeetsForeign(foreign, base, size)
  {
    forall p | InRange(p, base / PAGE, size / PAGE)
      ensures !Owned(k.slots, p)
    {
      forall i | 0 <= i < |k.slots|
        ensures !Owns(k.slots[i], p)
      {
        if k.slots[i].Some? && k.slots[i].value.committed {
          var a := k.slots[i].value;
          OneGood(k.slots, i);
          PageAligned(a);
          OnePage(p, base, size);
          OnePage(p, a.base, a.size);
        }
      }
    }
    forall p: nat
      ensures base <= p * 0x1000 < base + size <==> InRange(p, base / PAGE, size / PAGE)
    {
      OnePage(p, base, size);
    }
  }

  // ---- exactly when there is no memory ----

  lemma FinishRefuses(k: Kernel, i: nat, c: AllocateCall, foreign: Pages)
    requires Inv(k, foreign) && i < |k.slots| && k.slots[i].Some?
    ensures var a := k.slots[i].value;
            Finish(k, i, a.base, a.size, c).status.NoMemory? <==>
              Commits(c) && !a.committed && !NoneMapped(k.pages, a.base / PAGE, a.size / PAGE)
  {
    SizeAndBase(c);
    hide Has, GoodSlots, PagesRight, GoodArena, Commit, SparseProtectionFromXPage, Allows, Commits, NoneMapped;
    CommitKeeps(k, i, c.protect, foreign);
  }

  lemma WholePagesAreWhole(c: AllocateCall)
    ensures IsPageSize(PageSize(c.flags)) && Aligned(WholePages(c), PageSize(c.flags)) && Aligned(BasePage(c), PageSize(c.flags))
    ensures WholePages(c) % 0x1000 == 0 && BasePage(c) % 0x1000 == 0
    ensures c.size > 0 ==> WholePages(c) > 0
  {
    SizeAndBase(c);
    var n := PageSize(c.flags);
    assert WholePages(c) == MaskDown(c.size + n - 1, n) && BasePage(c) == MaskDown(c.base, n);
    hide WholePages, BasePage, MaskDown, IsLarge, PageSize, Aligned;
    AlignedIsPaged(WholePages(c), n);
    AlignedIsPaged(BasePage(c), n);
  }

  /** The arenas after the cut: the one it was made in has closed over it, from that side alone. */
  function Cut(k: Kernel, c: AllocateCall): Kernel
    requires ArenaFor(k, c).bottom + WholePages(c) <= ArenaFor(k, c).top
  {
    var at, a := CutAt(k, c), ArenaFor(k, c);
    var left := if FromTheTop(c) then Arena(a.bottom, at) else Arena(at + WholePages(c), a.top);
    if IsLarge(c) then k.(large := left) else k.(small := left)
  }

  /** An automatic request: cut at its place, if it finds one. */
  lemma LocatesAutomatic(k: Kernel, c: AllocateCall, foreign: Pages)
    requires Inv(k, foreign) && c.size > 0 && WholePages(c) < 0x1_0000_0000
    ensures FindsPlace(k, c) ==> CutAt(k, c) % 0x1000 == 0 && Inv(Cut(k, c), foreign)
    ensures Locate(k, 0, WholePages(c), PageSize(c.flags), FromTheTop(c)) ==
              if FindsPlace(k, c) then Take(Cut(k, c), CutAt(k, c), WholePages(c), PageSize(c.flags)) else NoRoom(k)
  {
    SizeAndBase(c);
    WholePagesAreWhole(c);
    var size, a := WholePages(c), ArenaFor(k, c);
    BumpPlaces(k.slots, a, if IsLarge(c) then LARGE_BEGIN else SMALL_BEGIN, if IsLarge(c) then LARGE_END else SMALL_END,
               FromTheTop(c), size, PageSize(c.flags));
    hide Bump, Available, Clear, WholePages, Take, First, PageSize, IsLarge, FromTheTop, GoodSlots, PagesRight;
    if a.bottom + size <= a.top {
      ClearIsAvailable(k.slots, CutAt(k, c), size);
      AlignedIsPaged(CutAt(k, c), PageSize(c.flags));
    }
  }

  /** A request for a base: the record of that range, or a new one. */
  lemma LocatesFixed(k: Kernel, c: AllocateCall, foreign: Pages)
    requires Inv(k, foreign) && c.size > 0 && WholePages(c) < 0x1_0000_0000 && BasePage(c) > 0
    ensures var r := Locate(k, BasePage(c), WholePages(c), PageSize(c.flags), FromTheTop(c));
            if exists i: nat :: IsReserved(k, c, i) then r.Found? && r.k == k && IsReserved(k, c, r.slot)
            else if !MayHave(k, c) then r == NoRoom(k)
            else r == Take(k, BasePage(c), WholePages(c), PageSize(c.flags))
  {
    SizeAndBase(c);
    WholePagesAreWhole(c);
    FirstExactly(k, c);
    hide WholePages, BasePage, Take, First, FromTheTop, Available, Clear, GoodSlots, PagesRight, GoodArena;
    if BasePage(c) + WholePages(c) <= 0x1_0000_0000 {
      ClearIsAvailable(k.slots, BasePage(c), WholePages(c));
    }
  }

  lemma ReservedOnce(k: Kernel, c: AllocateCall, i: nat, j: nat, foreign: Pages)
    requires Inv(k, foreign) && IsReserved(k, c, i) && IsReserved(k, c, j)
    ensures i == j
  {
    hide PagesRight, GoodArena, GoodSlots;
    if i != j {
      BasesDiffer(k.slots, i, j);
    }
  }

  /** Committing a new record of a clear range is refused only for somebody else's pages. */
  lemma NewRecordRefused(k: Kernel, base: nat, c: AllocateCall, foreign: Pages)
    requires Inv(k, foreign) && base % 0x1000 == 0 && WholePages(c) > 0 && Clear(k.slots, base, WholePages(c))
    requires Take(k, base, WholePages(c), PageSize(c.flags)).Found?
    requires Inv(Take(k, base, WholePages(c), PageSize(c.flags)).k, foreign)
    ensures var r := Take(k, base, WholePages(c), PageSize(c.flags));
            r.slot < |r.k.slots| && r.k.slots[r.slot].Some? && r.base == base &&
            (Finish(r.k, r.slot, base, WholePages(c), c).status.NoMemory? <==>
               Commits(c) && MeetsForeign(foreign, base, WholePages(c)))
  {
    var r := Take(k, base, WholePages(c), PageSize(c.flags));
    WholePagesAreWhole(c);
    hide First, WholePages, PageSize, Finish, Commits, MeetsForeign, GoodSlots, PagesRight, GoodArena, NoneMapped;
    FinishRefuses(r.k, r.slot, c, foreign);
    ForeignInTheWay(k, base, WholePages(c), foreign);
  }

  lemma TakeFinds(k: Kernel, base: nat, c: AllocateCall)
    ensures Take(k, base, WholePages(c), PageSize(c.flags)).Found? <==> HasRecord(k.slots)
  {
    FirstUnused(k.slots);
    hide First;
  }

  lemma AutomaticRefused(k: Kernel, c: AllocateCall, foreign: Pages)
    requires Inv(k, foreign) && !Malformed(k, c) && BasePage(c) == 0
    ensures Allocate(k, c).status.NoMemory? <==> NoMemoryFor(k, c, foreign)
  {
    SizeAndBase(c);
    WholePagesAreWhole(c);
    LocatesAutomatic(k, c, foreign);
    LocateRight(k, 0, WholePages(c), PageSize(c.flags), FromTheTop(c), foreign);
    hide Inv, Has, WholePages, BasePage, Take, Finish, Readable, GoodFlags, Commits, MeetsForeign, HasRecord, Clear, FromTheTop,
      PageSize, Locate;
    if FindsPlace(k, c) {
      TakeFinds(Cut(k, c), CutAt(k, c), c);
      if HasRecord(k.slots) {
        NewRecordRefused(Cut(k, c), CutAt(k, c), c, foreign);
      }
    }
  }

  lemma FixedRefused(k: Kernel, c: AllocateCall, foreign: Pages)
    requires Inv(k, foreign) && !Malformed(k, c) && BasePage(c) > 0
    ensures Allocate(k, c).status.NoMemory? <==> NoMemoryFor(k, c, foreign)
  {
    SizeAndBase(c);
    WholePagesAreWhole(c);
    LocatesFixed(k, c, foreign);
    LocateRight(k, BasePage(c), WholePages(c), PageSize(c.flags), FromTheTop(c), foreign);
    hide Inv, Has, WholePages, BasePage, Take, Finish, Readable, GoodFlags, Commits, MeetsForeign, HasRecord, Clear, FromTheTop,
      PageSize, Locate, NoneMapped;
    var r := Locate(k, BasePage(c), WholePages(c), PageSize(c.flags), FromTheTop(c));
    if exists i: nat :: IsReserved(k, c, i) {
      ReservedRefused(k, c, r.slot, foreign);
    } else if MayHave(k, c) {
      TakeFinds(k, BasePage(c), c);
      if HasRecord(k.slots) {
        NewRecordRefused(k, BasePage(c), c, foreign);
      }
    }
  }

  lemma ReservedRefused(k: Kernel, c: AllocateCall, i: nat, foreign: Pages)
    requires Inv(k, foreign) && IsReserved(k, c, i)
    ensures Finish(k, i, BasePage(c), WholePages(c), c).status.NoMemory? <==>
              && Commits(c) && MeetsForeign(foreign, BasePage(c), WholePages(c))
              && exists j: nat :: IsReserved(k, c, j) && !k.slots[j].value.committed
  {
    FinishRefuses(k, i, c, foreign);
    WholePagesAreWhole(c);
    hide PagesRight, GoodArena, Finish, Commits, MeetsForeign, NoneMapped, WholePages, BasePage, GoodAllocation;
    forall j: nat | IsReserved(k, c, j)
      ensures j == i
    {
      ReservedOnce(k, c, i, j, foreign);
    }
    if !k.slots[i].value.committed {
      forall j | 0 <= j < |k.slots| && k.slots[j].Some? && k.slots[j].value.committed
        ensures BasePage(c) + WholePages(c) <= k.slots[j].value.base
                || k.slots[j].value.base + k.slots[j].value.size <= BasePage(c)
      {
        assert Apart(k.slots[i].value, k.slots[j].value) || Apart(k.slots[j].value, k.slots[i].value);
      }
      ForeignInTheWay(k, BasePage(c), WholePages(c), foreign);
    }
  }

  /**
   A call is refused for want of memory exactly when it is well-formed and its range does not fit its
   arena or heap, meets a live allocation, finds no free record, or, if it is to be committed now, meets
   a page that somebody else has mapped; an earlier reservation of the same range is refused only that.
   */
  lemma RefusedIff(k: Kernel, c: AllocateCall, foreign: Pages)
    requires Inv(k, foreign)
    ensures Allocate(k, c).status.NoMemory? <==> !Malformed(k, c) && NoMemoryFor(k, c, foreign)
  {
    hide Inv, Readable, GoodFlags, RoundUpGuestSize, NoMemoryFor, Locate, Finish, BasePage;
    if !Malformed(k, c) {
      if BasePage(c) == 0 {
        AutomaticRefused(k, c, foreign);
      } else {
        FixedRefused(k, c, foreign);
      }
    }
  }

  // ---- where it goes ----

  /** The base a well-formed request gets if it gets memory. */
  ghost predicate GetsBase(k: Kernel, c: AllocateCall, base: nat) {
    if BasePage(c) == 0 then FindsPlace(k, c) && base == CutAt(k, c) else base == BasePage(c)
  }

  /** The arenas a well-formed call leaves are those its search leaves. */
  lemma ArenasOfSearch(k: Kernel, c: AllocateCall, foreign: Pages)
    requires Inv(k, foreign) && !Malformed(k, c)
    ensures var r := Locate(k, BasePage(c), WholePages(c), PageSize(c.flags), FromTheTop(c));
            Allocate(k, c).k.small == r.k.small && Allocate(k, c).k.large == r.k.large
  {
    SizeAndBase(c);
    WholePagesAreWhole(c);
    LocateRight(k, BasePage(c), WholePages(c), PageSize(c.flags), FromTheTop(c), foreign);
    hide Inv, Has, WholePages, BasePage, Finish, Readable, GoodFlags, FromTheTop, PageSize, Locate, First, RoundUpGuestSize;
    var r := Locate(k, BasePage(c), WholePages(c), PageSize(c.flags), FromTheTop(c));
    if r.Found? {
      FinishKeepsArenas(r.k, r.slot, r.base, WholePages(c), c);
    }
  }

  lemma ArenasAfter(k: Kernel, c: AllocateCall, foreign: Pages)
    requires Inv(k, foreign) && !Malformed(k, c)
    ensures var after := if BasePage(c) == 0 && FindsPlace(k, c) then Cut(k, c) else k;
            Allocate(k, c).k.small == after.small && Allocate(k, c).k.large == after.large
  {
    ArenasOfSearch(k, c, foreign);
    SizeAndBase(c);
    hide Inv, Readable, GoodFlags, Allocate, Locate, First, FindsPlace, Cut, MayHave, BasePage, WholePages, PageSize, FromTheTop;
    if BasePage(c) == 0 {
      LocatesAutomatic(k, c, foreign);
    } else {
      LocatesFixed(k, c, foreign);
    }
  }

  /**
   A well-formed request that is not refused is given its whole pages: at the bottom of its arena, or
   from the top down at its top, or at the base it asked for. Of the arenas only the one it is cut from
   changes, and only at that side, even if there is no record for it in the end.
   */
  lemma PlacedThere(k: Kernel, c: AllocateCall, foreign: Pages) returns (base: nat)
    requires Inv(k, foreign) && !Malformed(k, c)
    ensures var o := Allocate(k, c);
            && (!o.status.NoMemory? ==> GetsBase(k, c, base) && Gives(k, c, o.k, base))
            && (o.status.Success? ==> o.base == base && o.size == WholePages(c))
    ensures var after := if BasePage(c) == 0 && FindsPlace(k, c) then Cut(k, c) else k;
            Allocate(k, c).k.small == after.small && Allocate(k, c).k.large == after.large
  {
    SizeAndBase(c);
    ArenasAfter(k, c, foreign);
    base := EffectGives(k, c, foreign);
    if !Allocate(k, c).status.NoMemory? {
      if BasePage(c) == 0 {
        LocatesAutomatic(k, c, foreign);
      } else {
        LocatesFixed(k, c, foreign);
      }
    }
    hide Inv, Has, WholePages, BasePage, Finish, Readable, GoodFlags, FromTheTop, PageSize, Locate, FindsPlace, Cut, MayHave,
      First, Gives, Allocate, Writable, RoundUpGuestSize;
  }

  /** The first plain reservation of a booted kernel is at the bottom of the small arena, and one from the top down at its top. */
  lemma FirstReservation(foreign: Pages, c: AllocateCall)
    requires !Malformed(Boot(foreign), c) && c.flags in {0x2000, 0x10_2000} && c.base == 0 && c.size <= 0x1000
    requires Writable(Boot(foreign), c)
    ensures var o := Allocate(Boot(foreign), c);
            o.status == Success && o.size == 0x1000 && o.base == if c.flags == 0x2000 then 0x1000_0000 else 0x3FFF_F000
  {
  }
}
