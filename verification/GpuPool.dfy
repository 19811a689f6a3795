/**
 * Allocation handles over the linked buddy allocator of one memory type.
 */
module GpuPool {
  import opened Basics
  import opened BuddyLayout
  import opened BuddyModel
  import opened BuddyLinks
  import opened BuddyPool
  import opened GpuPoolModel

  /** The block is named by slot number: the slot array may move, numbers stay. */
  datatype Handle = Handle(blockIndex: nat, offset: nat, size: nat)

  predicate HandleOf(g: Grant, h: Handle) {
    g.index == h.blockIndex && g.offset == h.offset && g.size == h.size
  }

  class MemoryPool {
    const allocator: BuddyAllocator
    var usedBudget: int
    var allocationFailures: nat
    ghost var view: Pool

    ghost predicate Valid()
      reads this, allocator
    {
      && allocator.Valid() && PoolInv(view) && view.buddy == allocator.model
      && usedBudget == view.usedBudget && allocationFailures == view.failures
    }

    constructor (size: nat)
      ensures Valid() && fresh(allocator) && view == Start(size)
    {
      allocator := new BuddyAllocator(size);
      usedBudget, allocationFailures := 0, 0;
      view := Start(size);
    }

    /** `growOk` and `handleOk` are the answers of the C library to the requests for a longer
        slot array and for the handle record. */
    method GpuAlloc(size: nat, alignment: nat, growOk: bool, handleOk: bool, avx2: bool)
      returns (h: Option<Handle>)
      requires Valid()
      modifies this, allocator
      ensures Valid() && view == PoolAlloc(old(view), size, alignment, growOk, handleOk)
      ensures h.Some? <==> |view.live| == |old(view).live| + 1
      ensures h.Some? ==> HandleOf(view.live[|old(view).live|], h.value)
      ensures h.None? ==> view.live == old(view).live
    {
      hide Inv, GrantsOk, Alloc, FreeSlot, Coupled;
      AllocKeepsInv(view.buddy, size, alignment, growOk);
      AllocKeepsPool(view, size, alignment, growOk, handleOk);
      ghost var p := view;
      var block := allocator.BuddyAlloc(size, alignment, growOk, avx2);
      if block == NULL {
        allocationFailures := allocationFailures + 1;
        h := None;
      } else if !handleOk {
        allocator.BuddyFree(block);
        h := None;
      } else {
        var b := allocator.BlockAt(block);
        h := Some(Handle(block, b.offset, b.size));
        usedBudget := usedBudget + b.size;
      }
      view := PoolAlloc(p, size, alignment, growOk, handleOk);
    }

    /** Free a live handle: `k` is its place among the live ones. */
    method GpuFree(h: Handle, ghost k: nat)
      requires Valid() && k < |view.live| && HandleOf(view.live[k], h)
      modifies this, allocator
      ensures Valid() && k < |old(view).live| && view == PoolFree(old(view), k)
    {
      hide Inv, GrantsOk, FreeSlot, Coupled;
      ghost var p := view;
      HandleNamesSlot(p, k);
      FreeKeepsPool(p, k);
      usedBudget := usedBudget - h.size;
      var n := allocator.BlockCount();
      if h.blockIndex < n {
        allocator.BuddyFree(h.blockIndex);
      }
      view := PoolFree(p, k);
    }
  }
}
