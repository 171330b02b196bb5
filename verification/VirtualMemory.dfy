/**
 The kernel's virtual-memory services as they are written: a fixed table of records and four bump
 pointers updated in place, over the sparse page map. Each method is proved to do to the fields
 what VirtualAllocations.dfy says it does to the kernel.
 */
module VirtualMemory {
  import opened Options
  import opened SparsePages
  import opened VirtualAllocations

  class Services {
    const slots: array<Slot>
    var smallBottom: nat
    var smallTop: nat
    var largeBottom: nat
    var largeTop: nat
    var pages: Pages

    constructor (foreign: Pages)
      ensures slots.Length == MAX_ALLOCATIONS && fresh(slots)
      ensures Abs() == Kernel(NoSlots(MAX_ALLOCATIONS), Arena(SMALL_BEGIN, SMALL_END), Arena(LARGE_BEGIN, LARGE_END), foreign)
    {
      slots := new Slot[MAX_ALLOCATIONS](_ => None);
      smallBottom, smallTop := SMALL_BEGIN, SMALL_END;
      largeBottom, largeTop := LARGE_BEGIN, LARGE_END;
      pages := foreign;
      new;
      assert slots[..] == NoSlots(MAX_ALLOCATIONS);
    }

    ghost function Abs(): Kernel
      reads this, slots
    {
      Kernel(slots[..], Arena(smallBottom, smallTop), Arena(largeBottom, largeTop), pages)
    }

    method VirtualRangeAvailable(base: nat, size: nat) returns (available: bool)
      ensures available == Available(slots[..], base, size)
    {
      if size == 0 || base + size > ADDRESS_LIMIT {
        return false;
      }
      for i := 0 to slots.Length
        invariant forall j :: 0 <= j < i && slots[j].Some? ==> !Overlap(base, size, slots[j].value.base, slots[j].value.size)
      {
        if slots[i].Some? && Overlap(base, size, slots[i].value.base, slots[i].value.size) {
          assert slots[..][i] == slots[i];
          return false;
        }
      }
      return true;
    }

    /** FindVirtualAllocation, AcquireVirtualAllocationSlot and the search of a free, by what they look for. */
    method Find(q: Query) returns (found: Option<nat>)
      ensures found == First(slots[..], q, 0)
      ensures found.Some? ==> found.value < slots.Length && Hit(slots[found.value], q)
    {
      for i := 0 to slots.Length
        invariant First(slots[..], q, 0) == First(slots[..], q, i)
      {
        if Hit(slots[i], q) {
          return Some(i);
        }
      }
      return None;
    }

    method Take(base: nat, size: nat, pageSize: nat) returns (slot: Option<nat>)
      modifies slots
      ensures var r := VirtualAllocations.Take(old(Abs()), base, size, pageSize);
              && Abs() == r.k
              && slot == (if r.Found? then Some(r.slot) else None)
              && (r.Found? ==> r.slot < slots.Length && slots[r.slot].Some? && r.base == base)
    {
      slot := Find(Unused);
      if slot.Some? {
        ghost var before := slots[..];
        slots[slot.value] := Some(Allocation(false, base, size, pageSize, 0));
        assert slots[..] == before[slot.value := Some(Allocation(false, base, size, pageSize, 0))];
      }
    }

    method CommitVirtualAllocation(i: nat, protection: bv32) returns (ok: bool)
      requires i < slots.Length && slots[i].Some?
      modifies this, slots
      ensures (ok, Abs()) == Commit(old(Abs()), i, protection)
    {
      var a := slots[i].value;
      ghost var before := slots[..];
      if a.committed {
        slots[i] := Some(a.(protection := protection));
        assert slots[..] == before[i := Some(a.(protection := protection))];
        var protected := Protect(pages, a.base, a.size / PAGE, protection);
        if protected.None? {
          return false;
        }
        pages := protected.value;
        return true;
      }
      var mapped := Map(pages, a.base, a.size / PAGE, protection);
      if mapped.None? {
        return false;
      }
      pages := mapped.value;
      slots[i] := Some(a.(committed := true, protection := protection));
      assert slots[..] == before[i := Some(a.(committed := true, protection := protection))];
      return true;
    }

    /** The automatic placement of a call, cut from the bottom or the top of its arena. */
    method PlaceAutomatically(size: nat, pageSize: nat, topDown: bool) returns (base: Option<nat>)
      requires IsPageSize(pageSize)
      modifies this
      ensures var b := Bump(old(Abs()).slots, ArenaOf(old(Abs()), pageSize), topDown, size, pageSize);
              && base == (if b.Some? then Some(b.value.1) else None)
              && Abs() == (if b.Some? then WithArena(old(Abs()), pageSize, b.value.0) else old(Abs()))
    {
      hide Available, MaskDown;
      var bottom, top := smallBottom, smallTop;
      if pageSize == LARGE_PAGE {
        bottom, top := largeBottom, largeTop;
      }
      if topDown {
        if top < size || top - size < bottom {
          return None;
        }
        var at := MaskDown(top - size, pageSize);
        if at < bottom {
          return None;
        }
        var available := VirtualRangeAvailable(at, size);
        if !available {
          return None;
        }
        if pageSize == LARGE_PAGE {
          largeTop := at;
        } else {
          smallTop := at;
        }
        return Some(at);
      }
      var at := MaskDown(bottom + pageSize - 1, pageSize);
      if at + size > top {
        return None;
      }
      var available := VirtualRangeAvailable(at, size);
      if !available {
        return None;
      }
      if pageSize == LARGE_PAGE {
        largeBottom := at + size;
      } else {
        smallBottom := at + size;
      }
      return Some(at);
    }

    method NtAllocateVirtualMemory(c: AllocateCall) returns (status: Status, writtenBase: nat, writtenSize: nat)
      modifies this, slots
      ensures Outcome(Abs(), status, writtenBase, writtenSize) == Allocate(old(Abs()), c)
    {
      hide RoundUpGuestSize, Bump, VirtualAllocations.Take, Commit, Available, MaskDown, SparseProtectionFromXPage, First,
        PageSize, Has, Allows;
      status, writtenBase, writtenSize := InvalidParameter, 0, 0;
      if !Readable(pages, c.basePtr, c.sizePtr, c.debug) || !GoodFlags(c.flags) {
        return;
      }
      var pageSize := PageSize(c.flags);
      var rounded := RoundUpGuestSize(c.size, pageSize);
      if rounded.None? {
        return;
      }
      status := NoMemory;
      var size := rounded.value;
      var base := MaskDown(c.base, pageSize);
      var slot: Option<nat>;
      if base != 0 {
        slot := Find(Exactly(base, size));
        if slot.None? {
          if !FixedAllowed(base, size, pageSize) {
            return;
          }
          var available := VirtualRangeAvailable(base, size);
          if !available {
            return;
          }
          slot := Take(base, size, pageSize);
        }
      } else {
        var placed := PlaceAutomatically(size, pageSize, Has(c.flags, XMEM_TOP_DOWN));
        if placed.None? {
          return;
        }
        base := placed.value;
        slot := Take(base, size, pageSize);
      }
      if slot.None? {
        return;
      }
      status, writtenBase, writtenSize := CommitAndAnswer(slot.value, base, size, c);
    }

    /** The second half of an allocation. */
    method CommitAndAnswer(i: nat, base: nat, size: nat, c: AllocateCall)
      returns (status: Status, writtenBase: nat, writtenSize: nat)
      requires i < slots.Length && slots[i].Some?
      modifies this, slots
      ensures Outcome(Abs(), status, writtenBase, writtenSize) == Finish(old(Abs()), i, base, size, c)
    {
      hide SparseProtectionFromXPage, Has, Allows, Map, Protect;
      if Has(c.flags, XMEM_COMMIT) {
        var committed := slots[i].value.committed;
        var ok := CommitVirtualAllocation(i, SparseProtectionFromXPage(c.protect));
        if !ok {
          if !committed {
            ghost var before := slots[..];
            slots[i] := None;
            assert slots[..] == before[i := None];
          }
          return NoMemory, 0, 0;
        }
      }
      status, writtenBase, writtenSize := Answer(c.basePtr, c.sizePtr, base, size);
    }

    /** Writing base and size back through the caller's pointers. */
    method Answer(basePtr: nat, sizePtr: nat, base: nat, size: nat)
      returns (status: Status, writtenBase: nat, writtenSize: nat)
      ensures Outcome(Abs(), status, writtenBase, writtenSize) == WriteBack(Abs(), basePtr, sizePtr, base, size)
    {
      if !Allows(pages, basePtr, GUEST_WRITE) || !Allows(pages, sizePtr, GUEST_WRITE) {
        return InvalidParameter, 0, 0;
      }
      return Success, base, size;
    }

    method NtFreeVirtualMemory(c: FreeCall) returns (status: Status, writtenBase: nat, writtenSize: nat)
      modifies this, slots
      ensures Outcome(Abs(), status, writtenBase, writtenSize) == Free(old(Abs()), c)
    {
      hide RoundUpGuestSize, Unmap, Allows, First;
      writtenBase, writtenSize := 0, 0;
      if !Readable(pages, c.basePtr, c.sizePtr, c.debug) {
        return InvalidParameter, 0, 0;
      }
      if c.base == 0 {
        return NotAllocated, 0, 0;
      }
      var found := Find(Based(c.base));
      if found.None? {
        return if HeapAddress(c.base) then Unsuccessful else InvalidParameter, 0, 0;
      }
      var i := found.value;
      var a := slots[i].value;
      ghost var before := slots[..];
      if c.freeType == XMEM_DECOMMIT {
        if RoundUpGuestSize(c.size, a.pageSize) != Some(a.size) {
          return Unsuccessful, 0, 0;
        }
        if a.committed {
          var left := Unmap(pages, a.base, a.size / PAGE);
          if left.None? {
            return Unsuccessful, 0, 0;
          }
          pages := left.value;
          slots[i] := Some(a.(committed := false, protection := 0));
          assert slots[..] == before[i := Some(a.(committed := false, protection := 0))];
        }
      } else {
        if a.committed {
          var left := Unmap(pages, a.base, a.size / PAGE);
          if left.None? {
            return Unsuccessful, 0, 0;
          }
          pages := left.value;
        }
        slots[i] := None;
        assert slots[..] == before[i := None];
      }
      status, writtenBase, writtenSize := Answer(c.basePtr, c.sizePtr, c.base, a.size);
    }

    method ReleaseVirtualAllocations()
      requires slots.Length == MAX_ALLOCATIONS
      modifies this, slots
      ensures Abs() == Reset(old(Abs()))
    {
      ghost var before, was := slots[..], pages;
      for i := 0 to slots.Length
        invariant slots[..i] == NoSlots(i) && slots[i..] == before[i..]
        invariant pages == Unmapped(before, was, i)
      {
        hide Unmap;
        assert slots[i] == slots[i..][0] == before[i..][0] == before[i];
        if slots[i].Some? && slots[i].value.committed {
          var left := Unmap(pages, slots[i].value.base, slots[i].value.size / PAGE);
          if left.Some? {
            pages := left.value;
          }
        }
        slots[i] := None;
        assert slots[i + 1..] == before[i..][1..] == before[i + 1..];
        assert slots[..i + 1] == slots[..i] + [None];
      }
      assert slots[..] == slots[..slots.Length];
      smallBottom, smallTop := SMALL_BEGIN, SMALL_END;
      largeBottom, largeTop := LARGE_BEGIN, LARGE_END;
    }
  }
}
