/**
 * The buddy allocator as the program runs it: one growing array of block records, free-list
 * heads, a stack of dead slots, all linked by slot number and updated in place. Every
 * method is proved to do what module BuddyModel computes on the ghost field `model`.
 */
module BuddyPool {
  import opened Basics
  import opened BuddyLayout
  import opened BuddyModel
  import opened BuddyLinks

  ghost predicate Coupled(blocks: seq<Block>, heads: seq<int>, deadHead: int, m: Buddy) {
    && SlotsMatch(blocks, m.slots)
    && LinksOk(blocks, heads, m.lists)
    && DeadChain(blocks, deadHead, m.dead)
  }

  lemma HeadsFit(blocks: seq<Block>, heads: seq<int>, deadHead: int, model: Buddy)
    requires Inv(model) && Coupled(blocks, heads, deadHead, model)
    ensures |heads| == NUM_BUDDY_LEVELS && (deadHead == NULL <==> model.dead == [])
  {
  }

  class BuddyAllocator {
    var totalSize: nat
    var blocks: seq<Block>
    var maxBlocks: nat
    var freeLists: seq<int>
    var deadBlocks: int
    var allocatedBytes: int
    var peakAllocatedBytes: int
    ghost var model: Buddy

    ghost predicate Valid()
      reads this
    {
      && Inv(model)
      && Coupled(blocks, freeLists, deadBlocks, model)
      && totalSize == model.total && maxBlocks == model.capacity
      && allocatedBytes == model.allocatedBytes && peakAllocatedBytes == model.peakBytes
    }

    constructor (size: nat)
      ensures Valid() && model == Init(size)
    {
      var top := SizeToLevel(size);
      totalSize := size;
      maxBlocks := INITIAL_CAPACITY;
      blocks := [Block(NULL, NULL, 0, size, true, top)];
      freeLists := seq(NUM_BUDDY_LEVELS, l => if l == top then 0 else NULL);
      deadBlocks := NULL;
      allocatedBytes, peakAllocatedBytes := 0, 0;
      model := Init(size);
      InitInv(size);
      hide Inv;
    }

    // ----- list edits

    method Unlink(i: nat, ghost lists: seq<seq<nat>>)
      requires LinksOk(blocks, freeLists, lists) && i < |blocks|
      requires blocks[i].level < |lists| && i in lists[blocks[i].level]
      modifies this`blocks, this`freeLists
      ensures var l := old(blocks)[i].level;
              LinksOk(blocks, freeLists, lists[l := Without(lists[l], i)])
      ensures SameButLinks(old(blocks), blocks) && BusyUntouched(old(blocks), blocks)
    {
      UnlinkKeepsLinks(blocks, freeLists, lists, i);
      var b := blocks[i];
      if b.prev != NULL {
        blocks := blocks[b.prev := blocks[b.prev].(next := b.next)];
      } else {
        freeLists := freeLists[b.level := b.next];
      }
      if b.next != NULL {
        blocks := blocks[b.next := blocks[b.next].(prev := b.prev)];
      }
    }

    method PushFront(i: nat, ghost lists: seq<seq<nat>>)
      requires LinksOk(blocks, freeLists, lists) && i < |blocks| && blocks[i].isFree
      requires blocks[i].level < |lists| && i !in lists[blocks[i].level]
      modifies this`blocks, this`freeLists
      ensures var l := old(blocks)[i].level;
              LinksOk(blocks, freeLists, lists[l := [i] + lists[l]])
      ensures SameButLinks(old(blocks), blocks) && BusyUntouched(old(blocks), blocks)
    {
      PushKeepsLinks(blocks, freeLists, lists, i);
      var level := blocks[i].level;
      var head := freeLists[level];
      blocks := blocks[i := blocks[i].(next := head, prev := NULL)];
      if head != NULL {
        blocks := blocks[head := blocks[head].(prev := i)];
      }
      freeLists := freeLists[level := i];
    }

    /** Relink every free block after the slot array has moved. Runs only while the stack of
        dead slots is empty. */
    method RebuildFreeLists()
      requires Inv(model) && SlotsMatch(blocks, model.slots) && |freeLists| == NUM_BUDDY_LEVELS
      requires model.dead == [] && deadBlocks == NULL
      modifies this`blocks, this`freeLists
      ensures LinksOk(blocks, freeLists, RebuiltLists(model.slots, |model.slots|))
      ensures SlotsMatch(blocks, model.slots)
    {
      hide Inv;
      var l := 0;
      while l < NUM_BUDDY_LEVELS
        invariant 0 <= l <= NUM_BUDDY_LEVELS == |freeLists| && blocks == old(blocks)
        invariant forall k :: 0 <= k < l ==> freeLists[k] == NULL
      {
        freeLists := freeLists[l := NULL];
        l := l + 1;
      }
      var n := 0;
      while n < |blocks|
        invariant 0 <= n <= |blocks| == |model.slots|
        invariant SlotsMatch(blocks, model.slots)
        invariant LinksOk(blocks, freeLists, RebuiltLists(model.slots, n))
      {
        ghost var s := blocks;
        ghost var lists := RebuiltLists(model.slots, n);
        assert Matches(blocks[n], model.slots[n]);
        RebuildStep(model, n);
        if blocks[n].isFree {
          PushFront(n, lists);
        } else {
          blocks := blocks[n := blocks[n].(next := NULL, prev := NULL)];
          OutsideKeepsLinks(s, blocks, freeLists, lists, n, n);
        }
        LinksOnly(s, blocks, model.slots);
        n := n + 1;
      }
    }

    // ----- split

    /** Halve block i; NULL when it is of the smallest level or the array cannot grow. */
    method Split(i: nat, growOk: bool) returns (r: int)
      requires Valid() && IsFree(model.slots, i)
      modifies this
      ensures Valid()
      ensures if old(model).slots[i].level == 0 || (NeedsGrowth(old(model)) && !growOk)
              then r == NULL && model == old(model)
              else r == i && model == BuddyModel.Split(old(model), i)
    {
      hide Inv, SameUsed, CoalescedExcept, LinksOk, DeadChain, SplitSlots, SplitLists;
      ghost var m := model;
      assert Matches(blocks[i], model.slots[i]);
      if blocks[i].level == 0 {
        return NULL;
      }
      var ok := MakeRoom(growOk);
      if !ok {
        return NULL;
      }
      GrowKeepsInv(m);
      SplitStep(m, i);
      SplitLinked(i);
      model := BuddyModel.Split(m, i);
      r := i;
    }

    /** A longer slot array when all slots are in use. It may have moved, so every link is set
        again; this happens only while no slot is dead. */
    method MakeRoom(growOk: bool) returns (ok: bool)
      requires Valid()
      modifies this
      ensures Valid()
      ensures ok == (NeedsGrowth(old(model)) ==> growOk)
      ensures model == if ok then Grow(old(model)) else old(model)
    {
      hide Inv, LinksOk, DeadChain, RebuiltLists;
      HeadsFit(blocks, freeLists, deadBlocks, model);
      if deadBlocks == NULL && |blocks| >= maxBlocks {
        if !growOk {
          return false;
        }
        GrowKeepsInv(model);
        maxBlocks := 2 * maxBlocks;
        RebuildFreeLists();
        NoneDead(blocks);
        model := Grow(model);
      }
      ok := true;
    }

    /** The linked part of a split: unlink i, write both halves, push both. */
    method SplitLinked(i: nat)
      requires Inv(model) && Coupled(blocks, freeLists, deadBlocks, model)
      requires IsFree(model.slots, i) && model.slots[i].level > 0
      modifies this`blocks, this`freeLists, this`deadBlocks
      ensures var j := NextSlot(model);
              && Vacant(model.slots, j) && model.slots[i].level < |model.lists|
              && SlotsMatch(blocks, SplitSlots(model.slots, i, j))
              && LinksOk(blocks, freeLists, SplitLists(model.lists, model.slots[i].level, i, j))
              && DeadChain(blocks, deadBlocks, if model.dead != [] then model.dead[1..] else [])
    {
      hide Inv, LinksOk, Chain, DeadChain, SplitLists;
      ghost var j := NextSlot(model);
      ghost var level := model.slots[i].level;
      NextSlotIsVacant(model);
      FreeIsListed(model, i);
      assert Matches(blocks[i], model.slots[i]);
      ghost var lists1 := model.lists[level := Without(model.lists[level], i)];
      ghost var s0 := blocks;
      Unlink(i, model.lists);
      LinksOnly(s0, blocks, model.slots);
      DeadUntouched(s0, blocks, deadBlocks, model.dead);
      RemovedIsUnlisted(model, i);
      BusyIsUnlisted(model, j);
      UnlistedWithout(model.lists, level, i, j);
      var buddy := WriteHalves(i, lists1);
      ghost var rest := if model.dead != [] then model.dead[1..] else [];
      PushHalves(i, buddy, lists1, SplitSlots(model.slots, i, j), rest);
      SplitListsAsPushes(model.lists, level, i, j);
    }

    /** Block i becomes the lower half; the upper half goes to the top dead slot or to a new
        one. Neither is in a list yet. */
    method WriteHalves(i: nat, ghost lists: seq<seq<nat>>) returns (buddy: nat)
      requires Inv(model) && IsFree(model.slots, i) && model.slots[i].level > 0
      requires SlotsMatch(blocks, model.slots) && LinksOk(blocks, freeLists, lists)
      requires DeadChain(blocks, deadBlocks, model.dead) && Vacant(model.slots, NextSlot(model))
      requires Unlisted(lists, i) && Unlisted(lists, NextSlot(model))
      modifies this`blocks, this`deadBlocks
      ensures buddy == NextSlot(model) && buddy < |blocks|
      ensures SlotsMatch(blocks, SplitSlots(model.slots, i, buddy))
      ensures LinksOk(blocks, freeLists, lists)
      ensures DeadChain(blocks, deadBlocks, if model.dead != [] then model.dead[1..] else [])
    {
      hide Inv, LinksOk;
      assert Matches(blocks[i], model.slots[i]);
      NextSlotIsVacant(model);
      ghost var s := blocks;
      var newLevel := blocks[i].level - 1;
      var newSize := LevelSize(newLevel);
      var upper := Block(NULL, NULL, blocks[i].offset + newSize, newSize, true, newLevel);
      if deadBlocks != NULL {
        DeadPop(blocks, deadBlocks, model.dead);
        buddy := deadBlocks;
        deadBlocks := blocks[buddy].next;
        blocks := blocks[i := blocks[i].(level := newLevel, size := newSize)];
        blocks := blocks[buddy := upper];
      } else {
        buddy := |blocks|;
        blocks := blocks[i := blocks[i].(level := newLevel, size := newSize)];
        blocks := blocks + [upper];
      }
      SplitRecords(s, blocks, model.slots, i, buddy);
      OutsideKeepsLinks(s, blocks, freeLists, lists, i, buddy);
      PopLeaves(model, i);
      DeadFrame(s, blocks, deadBlocks, if model.dead != [] then model.dead[1..] else [], i, buddy);
    }

    /** List the upper half, then the lower half in front of it. */
    method PushHalves(i: nat, buddy: nat, ghost lists: seq<seq<nat>>, ghost slots: seq<Slot>, ghost dead: seq<nat>)
      requires LinksOk(blocks, freeLists, lists) && SlotsMatch(blocks, slots)
      requires DeadChain(blocks, deadBlocks, dead)
      requires i < |blocks| && buddy < |blocks| && i != buddy && IsFree(slots, i) && IsFree(slots, buddy)
      requires slots[i].level == slots[buddy].level < |lists|
      requires Unlisted(lists, i) && Unlisted(lists, buddy)
      modifies this`blocks, this`freeLists
      ensures var l := slots[i].level;
              LinksOk(blocks, freeLists, lists[l := [i] + ([buddy] + lists[l])])
      ensures SlotsMatch(blocks, slots) && DeadChain(blocks, deadBlocks, dead)
    {
      hide Chain;
      ghost var l := slots[i].level;
      assert Matches(blocks[i], slots[i]) && Matches(blocks[buddy], slots[buddy]);
      ghost var s := blocks;
      PushFront(buddy, lists);
      LinksOnly(s, blocks, slots);
      DeadUntouched(s, blocks, deadBlocks, dead);
      ghost var lists2 := lists[l := [buddy] + lists[l]];
      ghost var s2 := blocks;
      assert Matches(blocks[i], slots[i]);
      PushFront(i, lists2);
      LinksOnly(s2, blocks, slots);
      DeadUntouched(s2, blocks, deadBlocks, dead);
      assert lists2[l := [i] + lists2[l]] == lists[l := [i] + ([buddy] + lists[l])];
    }

    // ----- search

    /** Take the first free list from `level` up that is not empty, and split its head down. */
    method FindFreeBlock(level: nat, growOk: bool, avx2: bool) returns (r: int)
      requires Valid() && level < NUM_BUDDY_LEVELS
      modifies this
      ensures Valid()
      ensures var l := FirstNonempty(old(model).lists, level);
              if l == NUM_BUDDY_LEVELS then r == NULL && model == old(model)
              else
                var i := old(model).lists[l][0];
                && IsFree(old(model).slots, i)
                && model == SplitDown(old(model), i, level, growOk)
                && IsFree(model.slots, i)
                && r == if model.slots[i].level <= level then i else NULL
    {
      ghost var m := model;
      HeadsShowLists(blocks, freeLists, model.lists);
      if freeLists[level] != NULL {
        r := freeLists[level];
        HeadIsFree(model, level);
        return;
      }
      r := NULL;
      FirstNonemptyStep(model.lists, level);
      if level + 1 < NUM_BUDDY_LEVELS {
        var found := FindNonemptySlot(freeLists[level + 1..], avx2);
        FoundIsFirst(freeLists, model.lists, level + 1, found);
        if found >= 0 {
          var l := level + 1 + found;
          var i: nat := freeLists[l];
          HeadIsFree(model, l);
          r := SplitLoop(i, level, growOk);
        }
      }
    }

    method SplitLoop(i: nat, level: nat, growOk: bool) returns (r: int)
      requires Valid() && IsFree(model.slots, i)
      modifies this
      ensures Valid()
      ensures IsFree(old(model).slots, i) && model == SplitDown(old(model), i, level, growOk)
      ensures IsFree(model.slots, i) && r == if model.slots[i].level <= level then i else NULL
    {
      r := i;
      ghost var goal := SplitDown(model, i, level, growOk);
      assert Matches(blocks[i], model.slots[i]);
      while r != NULL && blocks[i].level > level
        invariant Valid() && IsFree(model.slots, i)
        invariant r == i || (r == NULL && model.slots[i].level > level && model == goal)
        invariant SplitDown(model, i, level, growOk) == goal
        invariant blocks[i].level == model.slots[i].level
        decreases model.slots[i].level, r
      {
        SplitStep(model, i);
        r := Split(i, growOk);
        assert Matches(blocks[i], model.slots[i]);
      }
    }

    // ----- coalescing

    /** Merge the free block i with its free buddy j; returns the slot of the merged block. */
    method MergePair(i: nat, j: nat) returns (lo: nat)
      requires Valid() && IsFree(model.slots, i) && IsFree(model.slots, j)
      requires Buddies(model.slots[i], model.slots[j]) && model.slots[i].level + 1 < NUM_BUDDY_LEVELS
      modifies this
      ensures Valid()
      ensures lo == Lower(old(model).slots, i, j) && model == Merge(old(model), i, j)
    {
      hide Inv, SameUsed, CoalescedExcept, LinksOk, DeadChain, MergeSlots, MergeLists;
      ghost var m := model;
      MergeStep(m, i, j);
      MergeLinked(i, j);
      lo := if blocks[i].offset > blocks[j].offset then j else i;
      assert Matches(blocks[i], model.slots[i]) && Matches(blocks[j], model.slots[j]);
      FinishMerge(i, j, lo);
      model := Merge(m, i, j);
    }

    /** Take both halves out of the list of their level. */
    method MergeLinked(i: nat, j: nat)
      requires Inv(model) && Coupled(blocks, freeLists, deadBlocks, model)
      requires IsFree(model.slots, i) && IsFree(model.slots, j) && i != j
      requires model.slots[i].level == model.slots[j].level
      modifies this`blocks, this`freeLists
      ensures var l := model.slots[i].level;
              && l < |model.lists|
              && LinksOk(blocks, freeLists, model.lists[l := Without(Without(model.lists[l], i), j)])
              && SlotsMatch(blocks, model.slots) && DeadChain(blocks, deadBlocks, model.dead)
    {
      hide Inv, Chain;
      FreeIsListed(model, i);
      FreeIsListed(model, j);
      ghost var l := model.slots[i].level;
      assert Matches(blocks[i], model.slots[i]);
      ghost var s0 := blocks;
      Unlink(i, model.lists);
      LinksOnly(s0, blocks, model.slots);
      DeadUntouched(s0, blocks, deadBlocks, model.dead);
      assert Matches(blocks[j], model.slots[j]);
      ghost var lists1 := model.lists[l := Without(model.lists[l], i)];
      ghost var s1 := blocks;
      Unlink(j, lists1);
      LinksOnly(s1, blocks, model.slots);
      DeadUntouched(s1, blocks, deadBlocks, model.dead);
      assert lists1[l := Without(lists1[l], j)] == model.lists[l := Without(Without(model.lists[l], i), j)];
    }

    /** Grow the lower half over both, retire the upper one, and list the merged block. */
    method FinishMerge(i: nat, j: nat, lo: nat)
      requires Inv(model) && IsFree(model.slots, i) && IsFree(model.slots, j) && i != j
      requires model.slots[i].level == model.slots[j].level && model.slots[i].level + 1 < NUM_BUDDY_LEVELS
      requires lo == i || lo == j
      requires var l := model.slots[i].level;
               && LinksOk(blocks, freeLists, model.lists[l := Without(Without(model.lists[l], i), j)])
               && SlotsMatch(blocks, model.slots) && DeadChain(blocks, deadBlocks, model.dead)
      modifies this`blocks, this`freeLists, this`deadBlocks
      ensures var hi := if lo == i then j else i;
              && SlotsMatch(blocks, MergeSlots(model.slots, lo, hi))
              && LinksOk(blocks, freeLists, MergeLists(model.lists, model.slots[i].level, i, j, lo))
              && DeadChain(blocks, deadBlocks, [hi] + model.dead)
    {
      hide Inv, LinksOk, DeadChain;
      var hi := if lo == i then j else i;
      ghost var l := model.slots[i].level;
      FreeIsListed(model, i);
      ghost var lists1 := model.lists[l := Without(Without(model.lists[l], i), j)];
      PairIsUnlisted(model, i, j);
      assert Matches(blocks[lo], model.slots[lo]) && Matches(blocks[hi], model.slots[hi]);
      ghost var s0, d0 := blocks, deadBlocks;
      var level := blocks[lo].level + 1;
      blocks := blocks[lo := blocks[lo].(level := level, size := LevelSize(level))];
      blocks := blocks[hi := blocks[hi].(isFree := false, next := deadBlocks, prev := NULL)];
      deadBlocks := hi;
      MergeRecords(s0, blocks, model.slots, lo, hi);
      OutsideKeepsLinks(s0, blocks, freeLists, lists1, lo, hi);
      LiveIsNotDead(model, lo);
      LiveIsNotDead(model, hi);
      DeadFrame(s0, blocks, d0, model.dead, lo, hi);
      DeadPush(blocks, d0, model.dead, hi);
      ghost var s1 := blocks;
      PushFront(lo, lists1);
      LinksOnly(s1, blocks, MergeSlots(model.slots, lo, hi));
      DeadUntouched(s1, blocks, deadBlocks, [hi] + model.dead);
    }

    method CoalesceFrom(i: nat)
      requires Valid() && IsFree(model.slots, i)
      modifies this
      ensures Valid() && IsFree(old(model).slots, i) && model == Coalesce(old(model), i)
    {
      ghost var goal := Coalesce(model, i);
      var block := i;
      assert Matches(blocks[block], model.slots[block]);
      while blocks[block].level < NUM_BUDDY_LEVELS - 1
        invariant Valid() && IsFree(model.slots, block)
        invariant blocks[block].level == model.slots[block].level
        invariant Coalesce(model, block) == goal
        decreases NUM_BUDDY_LEVELS - model.slots[block].level
      {
        var j := FindBuddy(block);
        if j == |blocks| {
          break;
        }
        MergeStep(model, block, j);
        block := MergePair(block, j);
        assert Matches(blocks[block], model.slots[block]);
      }
    }

    /** Scan all slots for the free buddy of a block; the number of slots when there is none. */
    method FindBuddy(i: nat) returns (j: nat)
      requires Valid() && i < |model.slots|
      ensures j == BuddyOf(model, i)
    {
      assert Matches(blocks[i], model.slots[i]);
      var offset, level := BuddyOffset(blocks[i].offset, blocks[i].level), blocks[i].level;
      j := 0;
      while j < |blocks| && !(blocks[j].offset == offset && blocks[j].level == level && blocks[j].isFree)
        invariant j <= |blocks| == |model.slots|
        invariant FindFree(model.slots, offset, level, 0) == FindFree(model.slots, offset, level, j)
      {
        assert Matches(blocks[j], model.slots[j]);
        j := j + 1;
      }
      assert j < |blocks| ==> Matches(blocks[j], model.slots[j]);
    }

    // ----- allocate and free

    method BlockCount() returns (n: nat)
      requires Valid()
      ensures n == |model.slots|
    {
      n := |blocks|;
    }

    method BlockAt(i: nat) returns (b: Block)
      requires Valid() && i < |model.slots|
      ensures Matches(b, model.slots[i])
    {
      b := blocks[i];
    }

    method BuddyAlloc(size: nat, alignment: nat, growOk: bool, avx2: bool) returns (r: int)
      requires Valid()
      modifies this
      ensures Valid()
      ensures (model, if r == NULL then None else Some(r)) == Alloc(old(model), size, alignment, growOk)
    {
      if size > MAX_BLOCK_SIZE || alignment > MAX_BLOCK_SIZE {
        return NULL;
      }
      var wanted := if size < alignment then alignment else size;
      var level := SizeToLevel(wanted);
      // The program raises the level further while its block size is below the alignment;
      // that never happens, since `wanted` is at least the alignment and within range.
      LevelForIsLeast(wanted, level);
      assert alignment <= LevelSize(level);
      ghost var m := model;
      r := FindFreeBlock(level, growOk, avx2);
      if r != NULL {
        SplitDownKeepsInv(m, r, level, growOk);
        TakeBlock(r);
      }
    }

    /** Take block i out of its free list and hand it out. */
    method TakeBlock(i: nat)
      requires Valid() && IsFree(model.slots, i)
      modifies this
      ensures Valid() && IsFree(old(model).slots, i) && model == Take(old(model), i)
    {
      hide Inv, LinksOk, DeadChain;
      ghost var m := model;
      ghost var l := m.slots[i].level;
      TakeKeepsInv(m, i);
      FreeIsListed(m, i);
      RemovedIsUnlisted(m, i);
      LiveIsNotDead(m, i);
      assert Matches(blocks[i], m.slots[i]);
      ghost var s0 := blocks;
      Unlink(i, m.lists);
      LinksOnly(s0, blocks, m.slots);
      DeadUntouched(s0, blocks, deadBlocks, m.dead);
      ghost var lists1 := m.lists[l := Without(m.lists[l], i)];
      ghost var s1 := blocks;
      assert Matches(blocks[i], m.slots[i]);
      blocks := blocks[i := blocks[i].(isFree := false, next := NULL, prev := NULL)];
      OutsideKeepsLinks(s1, blocks, freeLists, lists1, i, i);
      DeadFrame(s1, blocks, deadBlocks, m.dead, i, i);
      PutMatches(s1, m.slots, i, blocks[i], m.slots[i].(status := Used));
      allocatedBytes := allocatedBytes + blocks[i].size;
      if allocatedBytes > peakAllocatedBytes {
        peakAllocatedBytes := allocatedBytes;
      }
      model := Take(m, i);
    }

    method BuddyFree(i: int)
      requires Valid() && (i == NULL || Live(model.slots, i))
      modifies this
      ensures Valid()
      ensures model == if i == NULL then old(model) else FreeSlot(old(model), i)
    {
      if i == NULL {
        return;
      }
      assert Matches(blocks[i], model.slots[i]);
      if blocks[i].isFree {
        return;
      }
      ReleaseKeepsInv(model, i);
      ReleaseBlock(i);
      CoalesceFrom(i);
    }

    method ReleaseBlock(i: nat)
      requires Valid() && IsUsed(model.slots, i)
      modifies this
      ensures Valid() && IsUsed(old(model).slots, i) && model == Release(old(model), i)
    {
      hide Inv;
      ghost var m := model;
      ReleaseKeepsInv(m, i);
      BusyIsUnlisted(m, i);
      LiveIsNotDead(m, i);
      assert Matches(blocks[i], m.slots[i]);
      ghost var s0 := blocks;
      ghost var slots1 := m.slots[i := m.slots[i].(status := Free)];
      blocks := blocks[i := blocks[i].(isFree := true)];
      allocatedBytes := allocatedBytes - blocks[i].size;
      OutsideKeepsLinks(s0, blocks, freeLists, m.lists, i, i);
      DeadFrame(s0, blocks, deadBlocks, m.dead, i, i);
      PutMatches(s0, m.slots, i, blocks[i], slots1[i]);
      ghost var s1 := blocks;
      PushFront(i, m.lists);
      LinksOnly(s1, blocks, slots1);
      DeadUntouched(s1, blocks, deadBlocks, m.dead);
      model := Release(m, i);
    }
  }

  // ----- size classes and the search for a nonempty list

  method SizeToLevel(size: nat) returns (level: nat)
    ensures level == LevelFor(size)
  {
    if size <= MIN_BLOCK_SIZE {
      return 0;
    }
    var blockSize := MIN_BLOCK_SIZE;
    level := 0;
    while blockSize < size && level < NUM_BUDDY_LEVELS - 1
      invariant level < NUM_BUDDY_LEVELS && blockSize == LevelSize(level)
      invariant LevelFor(size) == LevelFrom(size, level)
    {
      blockSize := 2 * blockSize;
      level := level + 1;
    }
  }

  /** First entry that is not NULL, or -1; four entries at a time when AVX2 is available. */
  method FindNonemptySlot(slots: seq<int>, avx2: bool) returns (found: int)
    ensures -1 <= found < |slots|
    ensures found >= 0 ==> slots[found] != NULL && forall k :: 0 <= k < found ==> slots[k] == NULL
    ensures found < 0 ==> forall k :: 0 <= k < |slots| ==> slots[k] == NULL
  {
    var i := 0;
    if avx2 {
      while i + 3 < |slots|
        invariant 0 <= i <= |slots|
        invariant forall k :: 0 <= k < i ==> slots[k] == NULL
      {
        if !(slots[i] == NULL && slots[i + 1] == NULL && slots[i + 2] == NULL && slots[i + 3] == NULL) {
          var j := 0;
          while j < 4 && i + j < |slots|
            invariant 0 <= j <= 4 && i + j <= |slots|
            invariant forall k :: 0 <= k < i + j ==> slots[k] == NULL
          {
            if slots[i + j] != NULL {
              return i + j;
            }
            j := j + 1;
          }
        }
        i := i + 4;
      }
    }
    while i < |slots|
      invariant 0 <= i <= |slots|
      invariant forall k :: 0 <= k < i ==> slots[k] == NULL
    {
      if slots[i] != NULL {
        return i;
      }
      i := i + 1;
    }
    found := -1;
  }

  /** A free-list head is NULL exactly when the list is empty. */
  lemma HeadsShowLists(blocks: seq<Block>, heads: seq<int>, lists: seq<seq<nat>>)
    requires LinksOk(blocks, heads, lists)
    ensures forall l :: 0 <= l < |lists| ==> heads[l] == At(lists[l], 0)
  {
    forall l | 0 <= l < |lists|
      ensures heads[l] == At(lists[l], 0)
    {
      assert Chain(blocks, heads[l], lists[l], l);
    }
  }

  lemma FirstNonemptyStep(lists: seq<seq<nat>>, level: nat)
    requires level < |lists| && lists[level] == []
    ensures FirstNonempty(lists, level) == FirstNonempty(lists, level + 1)
  {
  }

  lemma FoundIsFirst(heads: seq<int>, lists: seq<seq<nat>>, level: nat, found: int)
    requires |heads| == |lists| && level <= |lists|
    requires forall l :: 0 <= l < |lists| ==> heads[l] == At(lists[l], 0)
    requires -1 <= found < |heads| - level
    requires found >= 0 ==> heads[level..][found] != NULL && forall k :: 0 <= k < found ==> heads[level..][k] == NULL
    requires found < 0 ==> forall k :: 0 <= k < |heads| - level ==> heads[level..][k] == NULL
    ensures FirstNonempty(lists, level) == if found < 0 then |lists| else level + found
  {
    var l := FirstNonempty(lists, level);
    assert l < |lists| ==> heads[level..][l - level] == heads[l];
    assert found >= 0 ==> heads[level..][found] == heads[level + found];
  }

  // ----- helper facts

  lemma RebuildStep(m: Buddy, n: nat)
    requires Inv(m) && n < |m.slots|
    ensures var lists, x := RebuiltLists(m.slots, n), m.slots[n];
            && Unlisted(lists, n)
            && (x.status == Free ==> && x.level < |lists|
                                     && RebuiltLists(m.slots, n + 1) == lists[x.level := [n] + lists[x.level]])
            && (x.status != Free ==> RebuiltLists(m.slots, n + 1) == lists)
  {
    assert m.slots[n].status == Free ==> Live(m.slots, n);
  }

  lemma PairIsUnlisted(m: Buddy, i: nat, j: nat)
    requires Inv(m) && IsFree(m.slots, i) && IsFree(m.slots, j)
    requires m.slots[i].level == m.slots[j].level < |m.lists|
    ensures var l := m.slots[i].level;
            var lists := m.lists[l := Without(Without(m.lists[l], i), j)];
            Unlisted(lists, i) && Unlisted(lists, j)
  {
    var l := m.slots[i].level;
    WithoutRemoves(m.lists[l], i);
    WithoutRemoves(Without(m.lists[l], i), j);
    forall k | 0 <= k < |m.lists| && k != l
      ensures i !in m.lists[k] && j !in m.lists[k]
    {
      assert HoldsFree(m.slots, m.lists[k], k);
    }
  }

  lemma MergeRecords(s: seq<Block>, r: seq<Block>, slots: seq<Slot>, lo: nat, hi: nat)
    requires SlotsMatch(s, slots) && lo < |s| && hi < |s| && lo != hi && |r| == |s|
    requires var l := s[lo].level + 1;
             && r[lo] == s[lo].(level := l, size := LevelSize(l))
             && r[hi] == s[hi].(isFree := false, next := r[hi].next, prev := r[hi].prev)
    requires forall k :: 0 <= k < |s| && k != lo && k != hi ==> r[k] == s[k]
    ensures SlotsMatch(r, MergeSlots(slots, lo, hi))
  {
    var t := MergeSlots(slots, lo, hi);
    forall k | 0 <= k < |r|
      ensures Matches(r[k], t[k])
    {
      assert Matches(s[k], slots[k]) && Matches(s[lo], slots[lo]);
    }
  }

  lemma SplitListsAsPushes(lists: seq<seq<nat>>, level: nat, i: nat, j: nat)
    requires 0 < level < |lists|
    ensures var lists1 := lists[level := Without(lists[level], i)];
            SplitLists(lists, level, i, j) == lists1[level - 1 := [i] + ([j] + lists1[level - 1])]
  {
    assert [i] + ([j] + lists[level - 1]) == [i, j] + lists[level - 1];
  }

  /** What is left on the dead stack after a split took its top. */
  lemma PopLeaves(m: Buddy, i: nat)
    requires Inv(m) && IsFree(m.slots, i)
    ensures var rest := if m.dead != [] then m.dead[1..] else [];
            i !in rest && NextSlot(m) !in rest
  {
  }

  /** The two halves written into the block array are the two halves of the model. */
  lemma SplitRecords(s: seq<Block>, r: seq<Block>, slots: seq<Slot>, i: nat, j: nat)
    requires SlotsMatch(s, slots) && IsFree(slots, i) && slots[i].level > 0 && Vacant(slots, j)
    requires |r| == if j < |s| then |s| else |s| + 1
    requires var l := s[i].level - 1;
             && l >= 0
             && r[i] == s[i].(level := l, size := LevelSize(l))
             && r[j] == Block(NULL, NULL, s[i].offset + LevelSize(l), LevelSize(l), true, l)
    requires forall k :: 0 <= k < |s| && k != i && k != j ==> r[k] == s[k]
    ensures SlotsMatch(r, SplitSlots(slots, i, j))
  {
    var t := SplitSlots(slots, i, j);
    forall k | 0 <= k < |r|
      ensures Matches(r[k], t[k])
    {
      assert Matches(s[i], slots[i]);
      assert k < |s| ==> Matches(s[k], slots[k]);
    }
  }
}
