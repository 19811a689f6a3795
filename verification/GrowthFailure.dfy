/**
 * What a failed growth of the slot array costs. The array starts with room for 1024 slots; a
 * pool of at most 1024 smallest blocks never needs more, and in every larger pool a request
 * can be cut off between two splits, after which freeing everything no longer restores it.
 */
module GrowthFailure {
  import opened Basics
  import opened Bits
  import opened BuddyLayout
  import opened BuddyModel
  import opened GpuPoolModel

  // ----- pools that the initial slot array suffices for

  /** All live slots but i are at least of the smallest size. */
  lemma {:induction false} LargeSlotCount(slots: seq<Slot>, n: nat, i: nat)
    requires n <= |slots| && Live(slots, i)
    ensures MIN_BLOCK_SIZE * SumTo(slots, n, LiveCount) + (if i < n then LevelSize(slots[i].level) - MIN_BLOCK_SIZE else 0)
         <= SumTo(slots, n, LiveBytes)
  {
    if n != 0 {
      LargeSlotCount(slots, n - 1, i);
    }
  }

  lemma {:induction false} Pow2Exceeds(l: nat)
    ensures l < Pow2(l)
  {
    if l != 0 {
      Pow2Exceeds(l - 1);
    }
  }

  lemma SmallPoolLevel(total: nat)
    ensures LevelSize(10) == MIN_BLOCK_SIZE * INITIAL_CAPACITY
    ensures LevelFor(total) <= 10 <==> total <= MIN_BLOCK_SIZE * INITIAL_CAPACITY
  {
    assert Pow2(10) == 1024 by { assert Pow2(6) == 64; }
    if total <= MAX_BLOCK_SIZE {
      LevelForIsLeast(total, 10);
    } else if LevelFor(total) <= 10 {
      LevelSizes(LevelFor(total), 10);
    }
  }

  /** A small pool always has the spare slots to split a free block all the way down. */
  lemma SmallPoolHasSpare(b: Buddy, i: nat)
    requires Inv(b) && IsFree(b.slots, i) && LevelFor(b.total) <= 10
    ensures b.slots[i].level <= SpareSlots(b)
  {
    SmallPoolLevel(b.total);
    LevelSizes(LevelFor(b.total), 10);
    LiveAndDead(b.slots, b.dead);
    LargeSlotCount(b.slots, |b.slots|, i);
    Pow2Exceeds(b.slots[i].level);
  }

  lemma SmallStepCoalesced(p: Pool, op: Op)
    requires PoolInv(p) && Coalesced(p.buddy.slots) && LevelFor(p.buddy.total) <= 10
    ensures Coalesced(Step(p, op).buddy.slots)
  {
    if op.OpAlloc? && !op.growOk {
      var l := FirstNonempty(p.buddy.lists, RequestLevel(op.size, op.alignment));
      if l < NUM_BUDDY_LEVELS {
        HeadIsFree(p.buddy, l);
        SmallPoolHasSpare(p.buddy, p.buddy.lists[l][0]);
      }
      hide Inv, GrantsOk;
      AllocCoalescedIff(p.buddy, op.size, op.alignment, false);
      AllocKeepsInv(p.buddy, op.size, op.alignment, false);
      var (b, res) := Alloc(p.buddy, op.size, op.alignment, false);
      if res.Some? {
        FreeKeepsInv(b, res.value);
      }
    } else {
      StepCoalesced(p, op);
    }
  }

  lemma {:induction false} SmallRunCoalesced(p: Pool, ops: seq<Op>)
    requires PoolInv(p) && Coalesced(p.buddy.slots) && LevelFor(p.buddy.total) <= 10
    ensures Coalesced(Exec(p, ops).buddy.slots)
    decreases |ops|
  {
    if ops != [] {
      hide PoolInv, Coalesced, LevelFor, Step;
      StepKeepsInv(p, ops[0]);
      SmallStepCoalesced(p, ops[0]);
      SmallRunCoalesced(Step(p, ops[0]), ops[1..]);
    }
  }

  // ----- how many slots and free blocks an allocation leaves

  lemma MemberOfItsList(b: Buddy, i: nat)
    requires Inv(b) && IsFree(b.slots, i)
    ensures b.slots[i].level < NUM_BUDDY_LEVELS && i in b.lists[b.slots[i].level]
  {
    assert HoldsFree(b.slots, b.lists[b.slots[i].level], b.slots[i].level);
  }

  ghost predicate Uncrowded(b: Buddy, n: nat) {
    b.dead == [] && |b.slots| + n <= b.capacity && |b.lists| == NUM_BUDDY_LEVELS
  }

  /** n slots were added to a pool without dead slots. */
  ghost predicate Added(b: Buddy, r: Buddy, n: nat) {
    && r.dead == [] && r.capacity == b.capacity && |r.slots| == |b.slots| + n
    && |r.lists| == |b.lists| == NUM_BUDDY_LEVELS
  }

  /** A free block of level l that was split down to level k is gone from its list; its parts
      are on the lists of the levels from k up to l, two of them on the lowest. */
  ghost predicate SplitInto(b: Buddy, r: Buddy, k: nat, l: nat) {
    && k < l && Added(b, r, l - k)
    && forall m :: 0 <= m < NUM_BUDDY_LEVELS ==>
         |r.lists[m]| == |b.lists[m]| + if m == l then -1 else if k < m < l then 1 else if m == k then 2 else 0
  }

  lemma SplitListCounts(lists: seq<seq<nat>>, l: nat, i: nat, j: nat, m: nat)
    requires 0 < l < |lists| && i in lists[l] && m < |lists|
    ensures |SplitLists(lists, l, i, j)| == |lists|
    ensures |SplitLists(lists, l, i, j)[m]| == |lists[m]| + if m == l then -1 else if m == l - 1 then 2 else 0
  {
    WithoutLength(lists[l], i);
  }

  lemma SplitCounts(b: Buddy, i: nat)
    requires Inv(b) && IsFree(b.slots, i) && b.slots[i].level > 0 && Uncrowded(b, 1)
    ensures SplitInto(b, Split(b, i), b.slots[i].level - 1, b.slots[i].level)
  {
    hide Inv, SplitLists;
    MemberOfItsList(b, i);
    var r := Split(b, i);
    forall m: nat | m < NUM_BUDDY_LEVELS
      ensures |r.lists| == |b.lists|
      ensures var l := b.slots[i].level;
              |r.lists[m]| == |b.lists[m]| + if m == l then -1 else if m == l - 1 then 2 else 0
    {
      SplitListCounts(b.lists, b.slots[i].level, i, NextSlot(b), m);
    }
    assert 0 < NUM_BUDDY_LEVELS;
  }

  lemma SplitIntoTrans(b: Buddy, s: Buddy, r: Buddy, k: nat, l: nat)
    requires 0 < l && SplitInto(b, s, l - 1, l) && SplitInto(s, r, k, l - 1)
    ensures SplitInto(b, r, k, l)
  {
  }

  lemma SplitOnce(b: Buddy, i: nat, k: nat)
    requires Inv(b) && IsFree(b.slots, i) && k < b.slots[i].level && Uncrowded(b, b.slots[i].level - k)
    ensures var s, l := Split(b, i), b.slots[i].level;
            && Inv(s) && IsFree(s.slots, i) && s.slots[i].level == l - 1
            && SplitInto(b, s, l - 1, l) && Uncrowded(s, l - 1 - k)
  {
    hide Inv, SameUsed, CoalescedExcept, Split;
    SplitStep(b, i);
    SplitCounts(b, i);
  }

  lemma {:induction false} SplitDownCounts(b: Buddy, i: nat, k: nat, growOk: bool)
    requires Inv(b) && IsFree(b.slots, i) && k < b.slots[i].level && Uncrowded(b, b.slots[i].level - k)
    ensures var r := SplitDown(b, i, k, growOk);
            SplitInto(b, r, k, b.slots[i].level) && IsFree(r.slots, i) && r.slots[i].level == k
    decreases b.slots[i].level
  {
    hide Inv, Split, SplitInto;
    SplitOnce(b, i, k);
    assert !NeedsGrowth(b);
    hide Uncrowded, NeedsGrowth;
    var l, s := b.slots[i].level, Split(b, i);
    if k < l - 1 {
      SplitDownCounts(s, i, k, growOk);
      SplitIntoTrans(b, s, SplitDown(s, i, k, growOk), k, l);
    }
  }

  lemma TakeCounts(d: Buddy, i: nat)
    requires Inv(d) && IsFree(d.slots, i) && d.dead == []
    ensures var r, k := Take(d, i), d.slots[i].level;
            && Added(d, r, 0)
            && forall m :: 0 <= m < NUM_BUDDY_LEVELS ==> |r.lists[m]| == |d.lists[m]| + if m == k then -1 else 0
  {
    MemberOfItsList(d, i);
    WithoutLength(d.lists[d.slots[i].level], i);
  }

  /** A free block of level l that is split down to level k and taken leaves one free block of
      each level from k up to l in its stead. */
  ghost predicate Borrowed(b: Buddy, r: Buddy, k: nat, l: nat) {
    && k <= l && Added(b, r, l - k)
    && forall m :: 0 <= m < NUM_BUDDY_LEVELS ==>
         |r.lists[m]| == |b.lists[m]| + if m == l then -1 else if k <= m < l then 1 else 0
  }

  lemma SplitAndTakeCounts(b: Buddy, i: nat, k: nat, growOk: bool)
    requires Inv(b) && IsFree(b.slots, i) && k <= b.slots[i].level && Uncrowded(b, b.slots[i].level - k)
    ensures var d := SplitDown(b, i, k, growOk);
            && Inv(d) && IsFree(d.slots, i) && d.slots[i].level == k
            && Borrowed(b, Take(d, i), k, b.slots[i].level)
  {
    hide Inv, SameUsed, CoalescedExcept, Take;
    SplitDownKeepsInv(b, i, k, growOk);
    if k < b.slots[i].level {
      SplitDownCounts(b, i, k, growOk);
    }
    TakeCounts(SplitDown(b, i, k, growOk), i);
  }

  lemma AllocCounts(b: Buddy, size: nat, alignment: nat, growOk: bool, l: nat)
    requires Inv(b) && size <= MAX_BLOCK_SIZE && alignment <= MAX_BLOCK_SIZE
    requires |b.lists| == NUM_BUDDY_LEVELS
    requires l == FirstNonempty(b.lists, RequestLevel(size, alignment)) < NUM_BUDDY_LEVELS
    requires Uncrowded(b, l - RequestLevel(size, alignment))
    ensures var (r, res) := Alloc(b, size, alignment, growOk);
            res.Some? && Borrowed(b, r, RequestLevel(size, alignment), l)
  {
    hide Inv, Take, SplitDown, Borrowed, RequestLevel;
    HeadIsFree(b, l);
    SplitAndTakeCounts(b, b.lists[l][0], RequestLevel(size, alignment), growOk);
  }

  // ----- binary numbers

  function Ones(v: nat): nat {
    if v == 0 then 0 else v % 2 + Ones(v / 2)
  }

  /** Position of the lowest one. */
  function LowestOne(v: nat): nat
    requires v > 0
  {
    if v % 2 == 1 then 0 else 1 + LowestOne(v / 2)
  }

  lemma {:induction false} LowestOneBelow(v: nat, n: nat)
    requires 0 < v < Pow2(n)
    ensures LowestOne(v) < n
  {
    if v % 2 == 0 {
      LowestOneBelow(v / 2, n - 1);
    }
  }

  lemma {:induction false} LowestOneIs(v: nat, l: nat)
    requires v > 0
    ensures l < LowestOne(v) ==> Bit(v, l) == 0
    ensures l == LowestOne(v) ==> Bit(v, l) == 1
    decreases v
  {
    if v % 2 == 0 && l > 0 {
      LowestOneIs(v / 2, l - 1);
    }
  }

  /** Subtracting one clears the lowest one and sets every bit below it. */
  lemma {:induction false} Decrement(v: nat, l: nat)
    requires v > 0
    ensures Bit(v - 1, l) == Bit(v, l) + if l == LowestOne(v) then -1 else if l < LowestOne(v) then 1 else 0
    ensures Ones(v - 1) + 1 == Ones(v) + LowestOne(v)
    decreases v
  {
    if v % 2 == 0 {
      Decrement(v / 2, if l == 0 then 0 else l - 1);
      assert (v - 1) / 2 == v / 2 - 1;
    } else {
      assert (v - 1) / 2 == v / 2;
    }
  }

  lemma {:induction false} ClearBit(v: nat, k: nat, l: nat)
    requires Bit(v, k) == 1
    ensures Pow2(k) <= v
    ensures Bit(v - Pow2(k), l) == if l == k then 0 else Bit(v, l)
    ensures Ones(v - Pow2(k)) + 1 == Ones(v)
    decreases k
  {
    if k > 0 {
      ClearBit(v / 2, k - 1, if l == 0 then 0 else l - 1);
      assert (v - Pow2(k)) / 2 == v / 2 - Pow2(k - 1);
    }
  }

  lemma Doubling(v: nat, l: nat)
    ensures Ones(2 * v) == Ones(v) && Ones(2 * v + 1) == Ones(v) + 1
    ensures Bit(2 * v, l + 1) == Bit(v, l) && Bit(2 * v + 1, l + 1) == Bit(v, l)
    ensures Bit(2 * v, 0) == 0 && Bit(2 * v + 1, 0) == 1
  {
    assert (2 * v) / 2 == v && (2 * v + 1) / 2 == v;
  }

  lemma {:induction false} OnesOfPow2(n: nat, l: nat)
    ensures Ones(Pow2(n)) == 1 && Bit(Pow2(n), l) == if l == n then 1 else 0
  {
    hide Bit, Ones;
    if n == 0 {
      BitsOfOne(l);
    } else {
      Doubling(Pow2(n - 1), if l == 0 then 0 else l - 1);
      OnesOfPow2(n - 1, if l == 0 then 0 else l - 1);
    }
  }

  lemma BitsOfOne(l: nat)
    ensures Ones(1) == 1 && Bit(1, l) == if l == 0 then 1 else 0
  {
    if l > 0 {
      ZeroBits(l - 1);
    }
  }


  lemma {:induction false} OnesBelowPow2(n: nat)
    ensures Ones(Pow2(n) - 1) == n && (n > 0 ==> Bit(Pow2(n) - 1, 0) == 1)
  {
    if n != 0 {
      hide Bit, Ones;
      Doubling(Pow2(n - 1) - 1, 0);
      OnesBelowPow2(n - 1);
    }
  }

  // ----- a run up to the last spare slots

  /** After g grants that used up the difference between the pool and v smallest blocks, the
      free lists spell v in binary. */
  ghost predicate Spells(b: Buddy, g: nat, v: nat) {
    && b.dead == [] && b.capacity == INITIAL_CAPACITY && |b.slots| == g + Ones(v)
    && |b.lists| == NUM_BUDDY_LEVELS && forall l: nat :: l < NUM_BUDDY_LEVELS ==> |b.lists[l]| == Bit(v, l)
  }

  lemma StartSpells(total: nat)
    ensures Spells(Init(total), 0, Pow2(LevelFor(total)))
  {
    var top := LevelFor(total);
    OnesOfPow2(top, 0);
    forall l: nat | l < NUM_BUDDY_LEVELS
      ensures |Init(total).lists[l]| == Bit(Pow2(top), l)
    {
      OnesOfPow2(top, l);
    }
  }

  lemma FirstSpelled(b: Buddy, g: nat, v: nat, k: nat, l: nat)
    requires Spells(b, g, v) && k <= l < NUM_BUDDY_LEVELS
    requires Bit(v, l) == 1 && forall m: nat :: k <= m < l ==> Bit(v, m) == 0
    ensures FirstNonempty(b.lists, k) == l
  {
    hide Bit;
    forall m: nat | k <= m < l
      ensures b.lists[m] == []
    {
      assert |b.lists[m]| == Bit(v, m);
    }
    assert b.lists[l] != [];
  }

  /** A request for a smallest block counts down by one. */
  lemma SmallestGrant(b: Buddy, g: nat, v: nat, growOk: bool)
    requires Inv(b) && Spells(b, g, v) && 0 < v < Pow2(NUM_BUDDY_LEVELS)
    requires g + 1 + Ones(v - 1) <= INITIAL_CAPACITY
    ensures var (r, res) := Alloc(b, MIN_BLOCK_SIZE, 0, growOk);
            res.Some? && Spells(r, g + 1, v - 1)
  {
    hide Inv, Alloc, FirstNonempty, LevelFor;
    var l := LowestOne(v);
    LowestOneBelow(v, NUM_BUDDY_LEVELS);
    LevelForLevelSize(0);
    CountsDown(v, l);
    hide Bit, Ones, LowestOne, Pow2, Borrowed;
    FirstSpelled(b, g, v, 0, l);
    AllocCounts(b, MIN_BLOCK_SIZE, 0, growOk, l);
    SpellsOneLess(b, Alloc(b, MIN_BLOCK_SIZE, 0, growOk).0, g, v, l);
  }

  lemma SpellsOneLess(b: Buddy, r: Buddy, g: nat, v: nat, l: nat)
    requires v > 0 && l == LowestOne(v) && Spells(b, g, v) && Borrowed(b, r, 0, l)
    ensures Spells(r, g + 1, v - 1)
  {
    CountsDown(v, l);
    hide Bit, Ones, LowestOne;
  }

  lemma CountsDown(v: nat, l: nat)
    requires v > 0 && l == LowestOne(v)
    ensures Bit(v, l) == 1 && forall m: nat :: m < l ==> Bit(v, m) == 0
    ensures forall m: nat :: Bit(v - 1, m) == Bit(v, m) + if m == l then -1 else if m < l then 1 else 0
    ensures Ones(v - 1) + 1 == Ones(v) + l
  {
    hide Bit, Ones, LowestOne;
    forall m: nat
      ensures m < l ==> Bit(v, m) == 0
      ensures Bit(v - 1, m) == Bit(v, m) + if m == l then -1 else if m < l then 1 else 0
    {
      LowestOneIs(v, m);
      Decrement(v, m);
    }
    LowestOneIs(v, l);
    Decrement(v, l);
  }

  /** A request for a block size that is on a list takes it from there. */
  lemma ListedGrant(b: Buddy, g: nat, v: nat, k: nat, growOk: bool)
    requires Inv(b) && Spells(b, g, v) && k < NUM_BUDDY_LEVELS && Bit(v, k) == 1
    requires g + Ones(v) <= INITIAL_CAPACITY
    ensures Pow2(k) <= v
    ensures var (r, res) := Alloc(b, LevelSize(k), 0, growOk);
            res.Some? && Spells(r, g + 1, v - Pow2(k))
  {
    hide Inv;
    LevelForLevelSize(k);
    forall m: nat
      ensures Pow2(k) <= v
      ensures Bit(v - Pow2(k), m) == if m == k then 0 else Bit(v, m)
      ensures Ones(v - Pow2(k)) + 1 == Ones(v)
    {
      ClearBit(v, k, m);
    }
    hide Bit, Ones, Alloc, FirstNonempty;
    FirstSpelled(b, g, v, k, k);
    AllocCounts(b, LevelSize(k), 0, growOk, k);
  }

  /** Smallest blocks to hand out first; then one block of 1 KB and one of 2 KB make it 1024
      smallest blocks. */
  const FILL := 1012

  function Fill(n: nat): seq<Op> {
    if n == 0 then [] else Fill(n - 1) + [OpAlloc(MIN_BLOCK_SIZE, 0, true, true)]
  }

  lemma {:induction false} ExecAppend(p: Pool, ops: seq<Op>, op: Op)
    requires PoolInv(p)
    ensures Exec(p, ops + [op]) == Step(Exec(p, ops), op)
    decreases |ops|
  {
    hide PoolInv, Step;
    if ops == [] {
      assert ops + [op] == [op];
      ExecOne(p, op);
    } else {
      StepKeepsInv(p, ops[0]);
      assert (ops + [op])[0] == ops[0] && (ops + [op])[1..] == ops[1..] + [op];
      ExecAppend(Step(p, ops[0]), ops[1..], op);
    }
  }

  lemma StepIsAlloc(p: Pool, size: nat, alignment: nat, growOk: bool)
    requires PoolInv(p)
    ensures var (r, res) := Alloc(p.buddy, size, alignment, growOk);
            var q := Step(p, OpAlloc(size, alignment, growOk, true));
            && q.buddy == r
            && (res.None? ==> q.live == p.live)
  {
    hide Alloc;
    AllocKeepsInv(p.buddy, size, alignment, growOk);
  }

  function Shifted(w: nat, k: nat): nat {
    if k == 0 then w else 2 * Shifted(w, k - 1)
  }

  lemma {:induction false} ShiftedBits(w: nat, k: nat, l: nat)
    ensures Ones(Shifted(w, k)) == Ones(w)
    ensures Bit(Shifted(w, k), l) == if l < k then 0 else Bit(w, l - k)
  {
    if k != 0 {
      hide Bit, Ones;
      Doubling(Shifted(w, k - 1), if l == 0 then 0 else l - 1);
      ShiftedBits(w, k - 1, if l == 0 then 0 else l - 1);
    }
  }

  lemma ShiftedIs(w: nat)
    ensures Shifted(w, 6) == 64 * w && Shifted(w, 10) == 1024 * w
  {
    assert Shifted(w, 1) == 2 * w;
    assert Shifted(w, 3) == 8 * w by { assert Shifted(w, 2) == 4 * w; }
    assert Shifted(w, 5) == 32 * w by { assert Shifted(w, 4) == 16 * w; }
    assert Shifted(w, 7) == 128 * w;
    assert Shifted(w, 9) == 512 * w by { assert Shifted(w, 8) == 256 * w; }
  }

  /** 2^(n + 10) less 1012 has n high ones and the ones of weight 4 and 8. */
  lemma FillOnes(n: nat, w: nat)
    requires w == Pow2(n) - 1
    ensures Ones(1024 * w + 12) == n + 2
    ensures Bit(1024 * w + 12, 2) == 1 && Bit(1024 * w + 8, 3) == 1
  {
    hide Bit, Ones;
    OnesBelowPow2(n);
    ShiftedBits(w, 6, 0);
    ShiftedIs(w);
    Doubling(64 * w, 0);
    Doubling(128 * w + 1, 0);
    Doubling(256 * w + 3, 0);
    Doubling(512 * w + 6, 1);
    Doubling(256 * w + 2, 1);
    Doubling(512 * w + 4, 2);
  }

  /** 2^(n + 10) less 1024 starts with a one of weight 1024. */
  lemma FullBits(n: nat, w: nat, l: nat)
    requires n > 0 && w == Pow2(n) - 1
    ensures Ones(1024 * w) == n
    ensures l < 10 ==> Bit(1024 * w, l) == 0
    ensures l == 10 ==> Bit(1024 * w, l) == 1
  {
    hide Bit, Ones, Shifted, Pow2;
    OnesBelowPow2(n);
    ShiftedBits(w, 10, l);
    ShiftedIs(w);
  }

  /** On the way there the slots never run out. */
  lemma {:induction false} FillFits(v: nat, n: nat)
    requires n <= FILL < v + n
    ensures n + Ones(v) <= FILL + Ones(v + n - FILL)
    decreases FILL - n
  {
    if n < FILL {
      Decrement(v, 0);
      FillFits(v - 1, n + 1);
    }
  }

  lemma TenDoublings(n: nat)
    ensures Pow2(n + 10) == 1024 * Pow2(n)
  {
    assert Pow2(n + 2) == 4 * Pow2(n);
    assert Pow2(n + 4) == 16 * Pow2(n);
    assert Pow2(n + 6) == 64 * Pow2(n);
    assert Pow2(n + 8) == 256 * Pow2(n);
  }

  lemma {:induction false} Pow2Grows(m: nat, n: nat)
    requires m < n
    ensures Pow2(m) < Pow2(n)
  {
    if m + 1 < n {
      Pow2Grows(m, n - 1);
    }
  }

  lemma LargePoolNumbers(top: nat) returns (n: nat, w: nat)
    requires 10 < top < NUM_BUDDY_LEVELS
    ensures n == top - 10 && w == Pow2(n) - 1
    ensures Pow2(top) == 1024 * w + 1024 < Pow2(NUM_BUDDY_LEVELS)
  {
    hide Pow2;
    n := top - 10;
    w := Pow2(n) - 1;
    TenDoublings(n);
    Pow2Grows(top, NUM_BUDDY_LEVELS);
  }

  lemma AnotherSmallest(p: Pool, g: nat, v: nat)
    requires PoolInv(p) && Spells(p.buddy, g, v) && 0 < v < Pow2(NUM_BUDDY_LEVELS)
    requires g + 1 + Ones(v - 1) <= INITIAL_CAPACITY
    ensures Spells(Step(p, OpAlloc(MIN_BLOCK_SIZE, 0, true, true)).buddy, g + 1, v - 1)
  {
    hide Inv, Spells, Ones, Pow2, Step;
    SmallestGrant(p.buddy, g, v, true);
    StepIsAlloc(p, MIN_BLOCK_SIZE, 0, true);
  }

  lemma {:induction false} Filled(total: nat, n: nat)
    requires LevelFor(total) > 10 && n <= FILL
    ensures n < Pow2(LevelFor(total))
    ensures Spells(Exec(Start(total), Fill(n)).buddy, n, Pow2(LevelFor(total)) - n)
  {
    hide PoolInv, Spells, LevelFor, Ones, Pow2, Start, Step, Exec;
    var m, w := LargePoolNumbers(LevelFor(total));
    var v := Pow2(LevelFor(total)) - n;
    if n == 0 {
      NothingFilled(total);
    } else {
      Filled(total, n - 1);
      FillFits(v, n);
      FillOnes(m, w);
      AnotherSmallest(Exec(Start(total), Fill(n - 1)), n - 1, v + 1);
      ExecAppend(Start(total), Fill(n - 1), OpAlloc(MIN_BLOCK_SIZE, 0, true, true));
    }
  }

  lemma NothingFilled(total: nat)
    ensures Spells(Exec(Start(total), Fill(0)).buddy, 0, Pow2(LevelFor(total)))
  {
    StartSpells(total);
    hide PoolInv, Spells, LevelFor;
  }

  /** 1014 grants that take the first 1024 smallest blocks of the pool. */
  function CrowdingRun(): seq<Op> {
    Fill(FILL) + [OpAlloc(LevelSize(2), 0, true, true)] + [OpAlloc(LevelSize(3), 0, true, true)]
  }

  lemma ListedStep(p: Pool, ops: seq<Op>, g: nat, v: nat, k: nat)
    requires PoolInv(p) && Spells(Exec(p, ops).buddy, g, v) && k < NUM_BUDDY_LEVELS && Bit(v, k) == 1
    requires g + Ones(v) <= INITIAL_CAPACITY
    ensures Pow2(k) <= v && Ones(v - Pow2(k)) + 1 == Ones(v)
    ensures Spells(Exec(p, ops + [OpAlloc(LevelSize(k), 0, true, true)]).buddy, g + 1, v - Pow2(k))
  {
    hide Inv, GrantsOk, Spells, Ones, Bit, Pow2, Step, LevelSize, Exec;
    var q := Exec(p, ops);
    ClearBit(v, k, 0);
    ListedGrant(q.buddy, g, v, k, true);
    StepIsAlloc(q, LevelSize(k), 0, true);
    ExecAppend(p, ops, OpAlloc(LevelSize(k), 0, true, true));
  }

  lemma TwoListed(p: Pool, ops: seq<Op>, g: nat, v: nat)
    requires PoolInv(p) && Spells(Exec(p, ops).buddy, g, v + 12)
    requires Bit(v + 12, 2) == 1 && Bit(v + 8, 3) == 1 && g + Ones(v + 12) <= INITIAL_CAPACITY
    ensures var more := ops + [OpAlloc(LevelSize(2), 0, true, true)];
            Spells(Exec(p, more + [OpAlloc(LevelSize(3), 0, true, true)]).buddy, g + 2, v)
  {
    hide *;
    SmallPowers();
    var more := ops + [OpAlloc(LevelSize(2), 0, true, true)];
    ListedStep(p, ops, g, v + 12, 2);
    assert Spells(Exec(p, more).buddy, g + 1, v + 8);
    ListedStep(p, more, g + 1, v + 8, 3);
  }

  lemma SmallPowers()
    ensures Pow2(2) == 4 && Pow2(3) == 8 && 3 < NUM_BUDDY_LEVELS
  {
  }

  lemma Crowded(total: nat)
    requires LevelFor(total) > 10
    ensures 1024 <= Pow2(LevelFor(total))
    ensures Spells(Exec(Start(total), CrowdingRun()).buddy, FILL + 2, Pow2(LevelFor(total)) - 1024)
  {
    hide PoolInv, Spells, LevelFor, Ones, Bit, Pow2, Start, Exec, Fill, LevelSize;
    var m, w := LargePoolNumbers(LevelFor(total));
    FillOnes(m, w);
    Filled(total, FILL);
    TwoListed(Start(total), Fill(FILL), FILL, 1024 * w);
  }

  lemma {:induction false} FillGrows(n: nat)
    ensures GrowthNeverFails(Fill(n))
  {
    if n != 0 {
      FillGrows(n - 1);
    }
  }

  lemma CrowdingGrows()
    ensures GrowthNeverFails(CrowdingRun())
  {
    hide Fill;
    FillGrows(FILL);
  }

  /** The next request for 256 bytes needs ten splits, and the array has room for two to nine
      more slots: when it cannot grow, the request stops half way. */
  function CutOffRun(): seq<Op> {
    CrowdingRun() + [OpAlloc(MIN_BLOCK_SIZE, 0, false, true)]
  }

  lemma CrowdedLists(b: Buddy, n: nat, w: nat)
    requires 0 < n <= 8 && w == Pow2(n) - 1 && Spells(b, FILL + 2, 1024 * w)
    ensures FirstNonempty(b.lists, 0) == 10 && 0 < SpareSlots(b) < 10
  {
    forall l: nat
      ensures l < 10 ==> Bit(1024 * w, l) == 0
      ensures l == 10 ==> Bit(1024 * w, l) == 1
      ensures Ones(1024 * w) == n
    {
      FullBits(n, w, l);
    }
    hide Bit, Ones, Pow2, FirstNonempty;
    FirstSpelled(b, FILL + 2, 1024 * w, 0, 10);
  }

  lemma CutOff(b: Buddy, n: nat, w: nat)
    requires Inv(b) && Coalesced(b.slots) && 0 < n <= 8 && w == Pow2(n) - 1
    requires Spells(b, FILL + 2, 1024 * w)
    ensures var (r, res) := Alloc(b, MIN_BLOCK_SIZE, 0, false);
            res.None? && !Coalesced(r.slots)
  {
    LevelForLevelSize(0);
    CrowdedLists(b, n, w);
    hide Inv, Pow2, LevelFor, SpareSlots, FirstNonempty, Coalesced, Alloc, Bit, Ones;
    AllocCutOff(b, MIN_BLOCK_SIZE, 0, 10);
  }

  /** In every pool of more than 1024 smallest blocks a failed growth leaves free buddies
      apart. */
  lemma GrowthFailureSplits(total: nat)
    requires total > MIN_BLOCK_SIZE * INITIAL_CAPACITY
    ensures !Coalesced(Exec(Start(total), CutOffRun()).buddy.slots)
  {
    SmallPoolLevel(total);
    hide Inv, GrantsOk, Spells, LevelFor, Pow2, Start, Step, Exec, CrowdingRun, Coalesced;
    Crowded(total);
    var n, w := LargePoolNumbers(LevelFor(total));
    CrowdingGrows();
    RunCoalesced(Start(total), CrowdingRun());
    var p := Exec(Start(total), CrowdingRun());
    CutOff(p.buddy, n, w);
    StepIsAlloc(p, MIN_BLOCK_SIZE, 0, false);
    ExecAppend(Start(total), CrowdingRun(), OpAlloc(MIN_BLOCK_SIZE, 0, false, true));
  }

  // ----- free buddies that were left apart stay apart

  lemma PairApart(b: Buddy, c: nat, d: nat, i: nat, j: nat)
    requires Inv(b) && FreePair(b.slots, c, d) && FreePair(b.slots, i, j) && c != i && c != j
    ensures d != i && d != j
  {
    assert Aligned(b.slots[c]) by { assert Live(b.slots, c); }
    assert Aligned(b.slots[i]) by { assert Live(b.slots, i); }
    PairSymmetric(b.slots, c, d);
    PairSymmetric(b.slots, i, j);
    hide Buddies, Aligned;
    if d == i {
      OneBuddy(b.slots, i, c, j);
    } else if d == j {
      OneBuddy(b.slots, j, c, i);
    }
  }

  /** Coalescing from another slot never touches a pair of free buddies. */
  lemma {:induction false} CoalesceKeepsPair(b: Buddy, c: nat, i: nat, j: nat)
    requires Inv(b) && IsFree(b.slots, c) && FreePair(b.slots, i, j) && c != i && c != j
    ensures FreePair(Coalesce(b, c).slots, i, j)
    decreases NUM_BUDDY_LEVELS - b.slots[c].level
  {
    hide Inv;
    var d := BuddyOf(b, c);
    if b.slots[c].level < NUM_BUDDY_LEVELS - 1 && d < |b.slots| {
      MergeStep(b, c, d);
      PairApart(b, c, d, i, j);
      hide BuddyOffset, SameUsed, CoalescedExcept;
      CoalesceKeepsPair(Merge(b, c, d), Lower(b.slots, c, d), i, j);
    }
  }

  lemma FreeSlotKeepsPair(b: Buddy, c: nat, i: nat, j: nat)
    requires Inv(b) && IsUsed(b.slots, c) && FreePair(b.slots, i, j)
    ensures FreePair(FreeSlot(b, c).slots, i, j)
  {
    hide Inv, BuddyOffset;
    ReleaseKeepsInv(b, c);
    CoalesceKeepsPair(Release(b, c), c, i, j);
  }

  lemma FreeKeepsPair(p: Pool, i: nat, j: nat)
    requires PoolInv(p) && |p.live| > 0 && FreePair(p.buddy.slots, i, j)
    ensures var q := Step(p, OpFree(0));
            |q.live| == |p.live| - 1 && FreePair(q.buddy.slots, i, j)
  {
    HandleNamesSlot(p, 0);
    hide Inv, GrantsOk, FreePair, FreeSlot;
    FreeSlotKeepsPair(p.buddy, p.live[0].index, i, j);
  }

  function FreeAll(n: nat): seq<Op> {
    if n == 0 then [] else [OpFree(0)] + FreeAll(n - 1)
  }

  lemma {:induction false} DrainKeepsPair(p: Pool, n: nat, i: nat, j: nat)
    requires PoolInv(p) && |p.live| == n && FreePair(p.buddy.slots, i, j)
    ensures var q := Exec(p, FreeAll(n));
            q.live == [] && FreePair(q.buddy.slots, i, j)
    decreases n
  {
    hide PoolInv, Step, FreePair;
    if n != 0 {
      FreeKeepsPair(p, i, j);
      StepKeepsInv(p, OpFree(0));
      assert FreeAll(n)[0] == OpFree(0) && FreeAll(n)[1..] == FreeAll(n - 1);
      DrainKeepsPair(Step(p, OpFree(0)), n - 1, i, j);
    }
  }

  lemma {:induction false} ExecConcat(p: Pool, xs: seq<Op>, ys: seq<Op>)
    requires PoolInv(p)
    ensures Exec(p, xs + ys) == Exec(Exec(p, xs), ys)
    decreases |xs|
  {
    hide PoolInv, Step;
    if xs == [] {
      assert xs + ys == ys;
    } else {
      StepKeepsInv(p, xs[0]);
      assert (xs + ys)[0] == xs[0] && (xs + ys)[1..] == xs[1..] + ys;
      ExecConcat(Step(p, xs[0]), xs[1..], ys);
    }
  }

  /** A run with one failed growth after which every handle has been freed, and still two free
      blocks are buddies. */
  lemma FreeingDoesNotRestore(total: nat) returns (ops: seq<Op>, i: nat, j: nat)
    requires total > MIN_BLOCK_SIZE * INITIAL_CAPACITY
    ensures Exec(Start(total), ops).live == []
    ensures FreePair(Exec(Start(total), ops).buddy.slots, i, j)
  {
    GrowthFailureSplits(total);
    hide PoolInv, Start, Exec, CutOffRun, FreePair;
    var p := Exec(Start(total), CutOffRun());
    i, j :| FreePair(p.buddy.slots, i, j);
    DrainKeepsPair(p, |p.live|, i, j);
    ops := CutOffRun() + FreeAll(|p.live|);
    ExecConcat(Start(total), CutOffRun(), FreeAll(|p.live|));
  }

  /** With two free buddies around, no block of the whole pool is on a list. */
  lemma PairMeansNotWhole(b: Buddy, i: nat, j: nat, t: nat)
    requires Inv(b) && FreePair(b.slots, i, j)
    ensures i != j && !(IsFree(b.slots, t) && b.slots[t].level >= LevelFor(b.total))
  {
    BuddiesAreHalves(b.slots, LevelFor(b.total), i, j);
    if IsFree(b.slots, t) && b.slots[t].level >= LevelFor(b.total) {
      TopHasNoBuddy(b.slots, LevelFor(b.total), t);
    }
  }

  lemma PairRefusesWhole(b: Buddy, i: nat, j: nat)
    requires Inv(b) && FreePair(b.slots, i, j)
    ensures Alloc(b, LevelSize(LevelFor(b.total)), 0, true) == (b, None)
    ensures forall t: nat :: !WholeIn(b, t)
  {
    var top := LevelFor(b.total);
    LevelForLevelSize(top);
    forall t: nat
      ensures !(IsFree(b.slots, t) && b.slots[t].level >= top)
    {
      PairMeansNotWhole(b, i, j, t);
    }
    hide LevelFor, LevelSize;
    var l := FirstNonempty(b.lists, top);
    if l < NUM_BUDDY_LEVELS {
      HeadIsFree(b, l);
    }
  }

  lemma EmptyHasRoom(top: nat)
    ensures RoomBelow([], top, LevelSize(top))
  {
    assert 0 % LevelSize(top) == 0 && NoGrantIn([], 0, top);
  }

  lemma PairBreaks(p: Pool, i: nat, j: nat)
    requires PoolInv(p) && p.live == [] && FreePair(p.buddy.slots, i, j)
    ensures var s := LevelSize(LevelFor(p.buddy.total));
            !ExactBelow(p, s, 0, s)
    ensures forall t: nat :: !WholeIn(p.buddy, t)
    ensures !Coalesced(p.buddy.slots)
  {
    hide Inv, GrantsOk, LevelFor, LevelSize, Alloc, WholeIn, RoomBelow;
    LevelForLevelSize(LevelFor(p.buddy.total));
    EmptyHasRoom(LevelFor(p.buddy.total));
    PairRefusesWhole(p.buddy, i, j);
  }

  // ----- retrying the request heals the pool

  /** Slot i heads the first nonempty list from level k up. */
  ghost predicate HeadsFirst(b: Buddy, i: nat, k: nat) {
    && IsFree(b.slots, i) && k <= b.slots[i].level < |b.lists|
    && b.lists[b.slots[i].level] != [] && b.lists[b.slots[i].level][0] == i
    && forall m :: k <= m < b.slots[i].level ==> b.lists[m] == []
  }

  lemma SplitKeepsHead(b: Buddy, i: nat, k: nat)
    requires Inv(b) && HeadsFirst(b, i, k) && k < b.slots[i].level && !NeedsGrowth(b)
    ensures HeadsFirst(Split(b, i), i, k)
  {
    SplitStep(b, i);
    hide Inv, SameUsed, CoalescedExcept, SplitSlots;
    var l := b.slots[i].level;
    assert Split(b, i).lists[l - 1] == [i, NextSlot(b)] + b.lists[l - 1];
  }

  /** Splitting down without growth leaves slot i in front, wherever it stops. */
  lemma {:induction false} SplitDownKeepsHead(b: Buddy, i: nat, k: nat)
    requires Inv(b) && HeadsFirst(b, i, k)
    ensures HeadsFirst(SplitDown(b, i, k, false), i, k)
    decreases b.slots[i].level
  {
    if b.slots[i].level > k && !NeedsGrowth(b) {
      SplitStep(b, i);
      SplitKeepsHead(b, i, k);
      hide Inv, SameUsed, CoalescedExcept, Split;
      SplitDownKeepsHead(Split(b, i), i, k);
    }
  }

  lemma HeadIsFirst(b: Buddy, i: nat, k: nat)
    requires Inv(b) && HeadsFirst(b, i, k)
    ensures FirstNonempty(b.lists, k) == b.slots[i].level && b.slots[i].level < NUM_BUDDY_LEVELS
  {
  }

  /** With growth available, a request served from slot i takes it: the only slot that may
      have a free buddy is then no longer free. */
  lemma TakingHeals(b: Buddy, size: nat, alignment: nat, i: nat)
    requires Inv(b) && size <= MAX_BLOCK_SIZE && alignment <= MAX_BLOCK_SIZE
    requires HeadsFirst(b, i, RequestLevel(size, alignment)) && CoalescedExcept(b.slots, i)
    ensures var (r, res) := Alloc(b, size, alignment, true);
            res.Some? && Coalesced(r.slots)
  {
    var k := RequestLevel(size, alignment);
    HeadIsFirst(b, i, k);
    hide Inv, SameUsed, CoalescedExcept, Coalesced, SplitDown, FirstNonempty, RequestLevel;
    SplitDownKeepsInv(b, i, k, true);
    SplitAndTakeSucceeds(b, i, k);
    TakeCoalesces(SplitDown(b, i, k, true).slots, i);
  }

  /** What a request leaves that was cut off by a failed growth. */
  lemma CutOffLeavesHead(b: Buddy, size: nat, alignment: nat) returns (i: nat)
    requires Inv(b) && Coalesced(b.slots) && !Coalesced(Alloc(b, size, alignment, false).0.slots)
    ensures size <= MAX_BLOCK_SIZE && alignment <= MAX_BLOCK_SIZE
    ensures var r := Alloc(b, size, alignment, false).0;
            HeadsFirst(r, i, RequestLevel(size, alignment)) && CoalescedExcept(r.slots, i)
  {
    var k := RequestLevel(size, alignment);
    var l := FirstNonempty(b.lists, k);
    AllocCoalescedIff(b, size, alignment, false);
    AllocKeepsCoalesced(b, size, alignment, false);
    HeadIsFree(b, l);
    hide Inv, SameUsed, CoalescedExcept, Coalesced, SplitDown, RequestLevel;
    i := b.lists[l][0];
    CoalescedWeaken(b.slots, i);
    SplitDownKeepsInv(b, i, k, false);
    SplitDownKeepsHead(b, i, k);
  }

  /** The same request again, this time with growth available, merges all that a failed one
      left apart. */
  lemma RetryHeals(b: Buddy, size: nat, alignment: nat)
    requires Inv(b) && Coalesced(b.slots)
    ensures Inv(Alloc(b, size, alignment, false).0)
    ensures Coalesced(Alloc(Alloc(b, size, alignment, false).0, size, alignment, true).0.slots)
  {
    hide Inv, Coalesced, Alloc, CoalescedExcept;
    AllocKeepsInv(b, size, alignment, false);
    var c := Alloc(b, size, alignment, false).0;
    if Coalesced(c.slots) {
      AllocCoalescedIff(c, size, alignment, true);
    } else {
      var i := CutOffLeavesHead(b, size, alignment);
      TakingHeals(c, size, alignment, i);
    }
  }

  lemma {:induction false} FreeAllGrows(n: nat)
    ensures GrowthNeverFails(FreeAll(n))
  {
    if n != 0 {
      FreeAllGrows(n - 1);
    }
  }

  lemma FreeShortens(p: Pool)
    requires PoolInv(p) && |p.live| > 0
    ensures PoolInv(Step(p, OpFree(0))) && |Step(p, OpFree(0)).live| == |p.live| - 1
  {
    StepKeepsInv(p, OpFree(0));
    hide Inv, GrantsOk, FreeSlot;
  }

  lemma {:induction false} DrainEmpties(p: Pool, n: nat)
    requires PoolInv(p) && |p.live| == n
    ensures Exec(p, FreeAll(n)).live == []
    decreases n
  {
    hide PoolInv, Step;
    if n != 0 {
      FreeShortens(p);
      assert FreeAll(n)[0] == OpFree(0) && FreeAll(n)[1..] == FreeAll(n - 1);
      DrainEmpties(Step(p, OpFree(0)), n - 1);
    }
  }

  /** A request whose growth fails, and the same request again. */
  function FailAndRetry(size: nat, alignment: nat): seq<Op> {
    [OpAlloc(size, alignment, false, true), OpAlloc(size, alignment, true, true)]
  }

  lemma RetryCoalesced(p: Pool, size: nat, alignment: nat)
    requires PoolInv(p) && Coalesced(p.buddy.slots)
    ensures Coalesced(Exec(p, FailAndRetry(size, alignment)).buddy.slots)
  {
    hide Inv, GrantsOk, Coalesced, Alloc, Step, Exec;
    var fail, again := OpAlloc(size, alignment, false, true), OpAlloc(size, alignment, true, true);
    ExecOne(p, fail);
    ExecAppend(p, [fail], again);
    assert [fail] + [again] == FailAndRetry(size, alignment);
    StepIsAlloc(p, size, alignment, false);
    StepIsAlloc(Exec(p, [fail]), size, alignment, true);
    RetryHeals(p.buddy, size, alignment);
  }

  /** After a run in which growth never failed, one failed growth and the same request again,
      freeing every handle brings the whole block back. */
  lemma RetryRestores(total: nat, ops: seq<Op>, size: nat, alignment: nat) returns (i: nat)
    requires GrowthNeverFails(ops)
    ensures var q := Exec(Exec(Start(total), ops), FailAndRetry(size, alignment));
            var r := Exec(q, FreeAll(|q.live|));
            r.live == [] && WholeIn(r.buddy, i)
  {
    hide Inv, GrantsOk, Coalesced, Exec, Start, FailAndRetry, FreeAll, WholeIn;
    var p := Exec(Start(total), ops);
    RunCoalesced(Start(total), ops);
    RetryCoalesced(p, size, alignment);
    var q := Exec(p, FailAndRetry(size, alignment));
    DrainEmpties(q, |q.live|);
    FreeAllGrows(|q.live|);
    RunCoalesced(q, FreeAll(|q.live|));
    i := EmptyRestores(Exec(q, FreeAll(|q.live|)));
  }

  // ----- the exact condition

  ghost predicate AlwaysCoalesced(total: nat) {
    forall ops: seq<Op> :: Coalesced(Exec(Start(total), ops).buddy.slots)
  }

  ghost predicate AlwaysRestored(total: nat) {
    forall ops: seq<Op> :: Exec(Start(total), ops).live == [] ==>
      exists i: nat :: WholeIn(Exec(Start(total), ops).buddy, i)
  }

  ghost predicate AlwaysExact(total: nat) {
    forall ops: seq<Op>, size: nat, alignment: nat ::
      ExactBelow(Exec(Start(total), ops), size, alignment, LevelSize(LevelFor(total)))
  }

  /** Whatever growths fail, free buddies are merged, the whole block comes back and requests
      are granted exactly when there is room: this holds over all runs if and only if the
      pool is no larger than 1024 smallest blocks. */
  lemma GrowthMattersIff(total: nat)
    ensures var small := total <= MIN_BLOCK_SIZE * INITIAL_CAPACITY;
            && (AlwaysCoalesced(total) <==> small)
            && (AlwaysRestored(total) <==> small)
            && (AlwaysExact(total) <==> small)
  {
    SmallPoolLevel(total);
    if total <= MIN_BLOCK_SIZE * INITIAL_CAPACITY {
      SmallPoolsHold(total);
    } else {
      LargePoolsFail(total);
    }
  }

  lemma SmallPoolsHold(total: nat)
    requires LevelFor(total) <= 10
    ensures AlwaysCoalesced(total) && AlwaysRestored(total) && AlwaysExact(total)
  {
    hide PoolInv, LevelFor, Exec, WholeIn, ExactBelow, Coalesced;
    forall ops: seq<Op>
      ensures Coalesced(Exec(Start(total), ops).buddy.slots)
    {
      SmallRunCoalesced(Start(total), ops);
    }
    forall ops: seq<Op> | Exec(Start(total), ops).live == []
      ensures exists i: nat :: WholeIn(Exec(Start(total), ops).buddy, i)
    {
      var i := EmptyRestores(Exec(Start(total), ops));
    }
    forall ops: seq<Op>, size: nat, alignment: nat
      ensures ExactBelow(Exec(Start(total), ops), size, alignment, LevelSize(LevelFor(total)))
    {
      CoalescedIsExact(Exec(Start(total), ops), size, alignment);
    }
  }

  lemma LargePoolsFail(total: nat)
    requires total > MIN_BLOCK_SIZE * INITIAL_CAPACITY
    ensures !AlwaysCoalesced(total) && !AlwaysRestored(total) && !AlwaysExact(total)
  {
    hide PoolInv, LevelFor, Exec, WholeIn, ExactBelow, Coalesced, FreePair;
    var ops, i, j := FreeingDoesNotRestore(total);
    PairBreaks(Exec(Start(total), ops), i, j);
  }
}
