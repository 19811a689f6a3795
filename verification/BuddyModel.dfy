/**
 * The buddy allocator on values: free lists and the dead-slot stack are sequences of slot
 * numbers. Every operation keeps one invariant; the linked implementation is proved
 * against these functions in module BuddyPool.
 */
module BuddyModel {
  import opened Basics
  import opened Bits
  import opened BuddyLayout

  const INITIAL_CAPACITY := 1024

  datatype Buddy = Buddy(
    total: nat,
    slots: seq<Slot>,
    lists: seq<seq<nat>>,
    dead: seq<nat>,
    capacity: nat,
    allocatedBytes: int,
    peakBytes: int)

  // ----- size classes

  /** Least level whose block size reaches `size`, searching from `level` and clamped. */
  function LevelFrom(size: nat, level: nat): (l: nat)
    requires level < NUM_BUDDY_LEVELS
    ensures level <= l < NUM_BUDDY_LEVELS
    ensures l == NUM_BUDDY_LEVELS - 1 || size <= LevelSize(l)
    ensures l == level || LevelSize(l - 1) < size
    decreases NUM_BUDDY_LEVELS - level, size
  {
    if LevelSize(level) < size && level < NUM_BUDDY_LEVELS - 1 then LevelFrom(size, level + 1) else level
  }

  function LevelFor(size: nat): (l: nat)
    ensures l < NUM_BUDDY_LEVELS
    ensures l == NUM_BUDDY_LEVELS - 1 || size <= LevelSize(l)
    ensures l == 0 || LevelSize(l - 1) < size
  {
    LevelFrom(size, 0)
  }

  lemma TopLevelSize()
    ensures LevelSize(NUM_BUDDY_LEVELS - 1) == MAX_BLOCK_SIZE
  {
    assert Pow2(4) == 16;
    assert Pow2(8) == 256 by { assert Pow2(6) == 64; }
    assert Pow2(12) == 4096 by { assert Pow2(10) == 1024; }
    assert Pow2(16) == 65536 by { assert Pow2(14) == 16384; }
    assert Pow2(18) == 262144;
  }

  /** Up to the largest block, LevelFor is the least level that holds the request. */
  lemma {:induction false} LevelForIsLeast(size: nat, l: nat)
    requires size <= MAX_BLOCK_SIZE
    ensures LevelFor(size) <= l <==> size <= LevelSize(l)
  {
    TopLevelSize();
    var k := LevelFor(size);
    if k <= l {
      LevelSizes(k, l);
    } else {
      LevelSizes(l, k - 1);
    }
  }

  function RequestLevel(size: nat, alignment: nat): (l: nat)
    ensures l < NUM_BUDDY_LEVELS
  {
    LevelFor(if size < alignment then alignment else size)
  }

  // ----- lists of slot numbers

  ghost predicate NoDup(xs: seq<nat>) {
    forall p, q :: 0 <= p < q < |xs| ==> xs[p] != xs[q]
  }

  function Without(xs: seq<nat>, i: nat): (r: seq<nat>)
    ensures forall x :: x in r ==> x in xs
    ensures forall x :: x in xs && x != i ==> x in r
  {
    if xs == [] then [] else if xs[0] == i then xs[1..] else [xs[0]] + Without(xs[1..], i)
  }

  lemma {:induction false} WithoutRemoves(xs: seq<nat>, i: nat)
    requires NoDup(xs)
    ensures NoDup(Without(xs, i)) && i !in Without(xs, i)
  {
    if xs != [] && xs[0] != i {
      WithoutRemoves(xs[1..], i);
      assert xs[0] !in xs[1..];
    }
  }

  /** Free slots of one level among the first n, highest number first: the order in which a
      scan that pushes at the front leaves them. */
  function FreeBelow(slots: seq<Slot>, n: nat, level: nat): (r: seq<nat>)
    requires n <= |slots|
    ensures forall x: nat :: x in r <==> x < n && slots[x].status == Free && slots[x].level == level
  {
    if n == 0 then []
    else if slots[n - 1].status == Free && slots[n - 1].level == level then
      [n - 1] + FreeBelow(slots, n - 1, level)
    else FreeBelow(slots, n - 1, level)
  }

  lemma {:induction false} FreeBelowNoDup(slots: seq<Slot>, n: nat, level: nat)
    requires n <= |slots|
    ensures NoDup(FreeBelow(slots, n, level))
  {
    if n != 0 {
      FreeBelowNoDup(slots, n - 1, level);
    }
  }

  // ----- operations

  predicate NeedsGrowth(b: Buddy) {
    b.dead == [] && |b.slots| >= b.capacity
  }

  function RebuiltLists(slots: seq<Slot>, n: nat): (r: seq<seq<nat>>)
    requires n <= |slots|
  {
    seq(NUM_BUDDY_LEVELS, l requires 0 <= l => FreeBelow(slots, n, l))
  }

  function Grow(b: Buddy): Buddy {
    if NeedsGrowth(b) then
      b.(capacity := 2 * b.capacity, lists := RebuiltLists(b.slots, |b.slots|))
    else b
  }

  /** The slot a split writes its upper half to: the top dead slot, or a new one. */
  function NextSlot(b: Buddy): nat {
    if b.dead != [] then b.dead[0] else |b.slots|
  }

  lemma NextSlotIsVacant(b: Buddy)
    requires Inv(b)
    ensures Vacant(b.slots, NextSlot(b)) && (b.dead != [] ==> NextSlot(b) < |b.slots|)
  {
    assert b.dead != [] ==> b.dead[0] in b.dead;
  }

  function SplitLists(lists: seq<seq<nat>>, level: nat, i: nat, j: nat): (r: seq<seq<nat>>)
    requires 0 < level < |lists|
  {
    lists[level := Without(lists[level], i)][level - 1 := [i, j] + lists[level - 1]]
  }

  function Split(b: Buddy, i: nat): Buddy
    requires Inv(b) && IsFree(b.slots, i) && b.slots[i].level > 0
  {
    GrowKeepsInv(b);
    var g := Grow(b);
    var j := NextSlot(g);
    NextSlotIsVacant(g);
    g.(slots := SplitSlots(g.slots, i, j),
       lists := SplitLists(g.lists, g.slots[i].level, i, j),
       dead := if g.dead != [] then g.dead[1..] else [])
  }

  /** Split slot i until it has the wanted level, or until the slot array cannot grow. */
  function SplitDown(b: Buddy, i: nat, level: nat, growOk: bool): Buddy
    requires Inv(b) && IsFree(b.slots, i)
    decreases b.slots[i].level
  {
    if b.slots[i].level <= level || (NeedsGrowth(b) && !growOk) then b
    else
      SplitStep(b, i);
      SplitDown(Split(b, i), i, level, growOk)
  }

  function FirstNonempty(lists: seq<seq<nat>>, level: nat): (l: nat)
    requires level <= |lists|
    ensures level <= l <= |lists|
    ensures l < |lists| ==> lists[l] != []
    ensures forall k :: level <= k < l ==> lists[k] == []
    decreases |lists| - level
  {
    if level == |lists| || lists[level] != [] then level else FirstNonempty(lists, level + 1)
  }

  function Take(b: Buddy, i: nat): Buddy
    requires Inv(b) && IsFree(b.slots, i)
  {
    var x := b.slots[i];
    var n := b.allocatedBytes + x.size;
    b.(slots := b.slots[i := x.(status := Used)],
       lists := b.lists[x.level := Without(b.lists[x.level], i)],
       allocatedBytes := n,
       peakBytes := if n > b.peakBytes then n else b.peakBytes)
  }

  function Alloc(b: Buddy, size: nat, alignment: nat, growOk: bool): (Buddy, Option<nat>)
    requires Inv(b)
  {
    if size > MAX_BLOCK_SIZE || alignment > MAX_BLOCK_SIZE then (b, None)
    else
      var level := RequestLevel(size, alignment);
      var l := FirstNonempty(b.lists, level);
      if l == NUM_BUDDY_LEVELS then (b, None)
      else
        var i := b.lists[l][0];
        SplitDownKeepsInv(b, i, level, growOk);
        var b1 := SplitDown(b, i, level, growOk);
        if b1.slots[i].level <= level then (Take(b1, i), Some(i)) else (b1, None)
  }

  /** First free slot at the given offset and level, or the number of slots. */
  function FindFree(slots: seq<Slot>, offset: nat, level: nat, from: nat): (j: nat)
    requires from <= |slots|
    ensures from <= j <= |slots|
    ensures j < |slots| ==> IsFree(slots, j) && slots[j].offset == offset && slots[j].level == level
    ensures forall k :: from <= k < j ==>
              !(IsFree(slots, k) && slots[k].offset == offset && slots[k].level == level)
    decreases |slots| - from
  {
    if from == |slots| ||
       (slots[from].status == Free && slots[from].offset == offset && slots[from].level == level)
    then from else FindFree(slots, offset, level, from + 1)
  }

  function BuddyOf(b: Buddy, i: nat): (j: nat)
    requires i < |b.slots|
    ensures j <= |b.slots|
  {
    FindFree(b.slots, BuddyOffset(b.slots[i].offset, b.slots[i].level), b.slots[i].level, 0)
  }

  function MergeLists(lists: seq<seq<nat>>, level: nat, i: nat, j: nat, lo: nat): (r: seq<seq<nat>>)
    requires level + 1 < |lists|
  {
    lists[level := Without(Without(lists[level], i), j)][level + 1 := [lo] + lists[level + 1]]
  }

  /** Of two slots, the one with the lower offset. */
  function Lower(slots: seq<Slot>, i: nat, j: nat): (lo: nat)
    requires i < |slots| && j < |slots|
  {
    if slots[i].offset > slots[j].offset then j else i
  }

  function Merge(b: Buddy, i: nat, j: nat): Buddy
    requires Inv(b) && IsFree(b.slots, i) && IsFree(b.slots, j)
    requires b.slots[i].level + 1 < NUM_BUDDY_LEVELS
  {
    var lo := Lower(b.slots, i, j);
    var hi := if lo == i then j else i;
    b.(slots := MergeSlots(b.slots, lo, hi),
       lists := MergeLists(b.lists, b.slots[i].level, i, j, lo),
       dead := [hi] + b.dead)
  }

  function Coalesce(b: Buddy, i: nat): Buddy
    requires Inv(b) && IsFree(b.slots, i)
    decreases NUM_BUDDY_LEVELS - b.slots[i].level
  {
    if b.slots[i].level >= NUM_BUDDY_LEVELS - 1 then b
    else
      var j := BuddyOf(b, i);
      if j == |b.slots| then b
      else
        MergeKeepsInv(b, i, j);
        Coalesce(Merge(b, i, j), Lower(b.slots, i, j))
  }

  function Release(b: Buddy, i: nat): Buddy
    requires Inv(b) && IsUsed(b.slots, i)
  {
    var x := b.slots[i];
    b.(slots := b.slots[i := x.(status := Free)],
       lists := b.lists[x.level := [i] + b.lists[x.level]],
       allocatedBytes := b.allocatedBytes - x.size)
  }

  /** Free a live slot; freeing a slot that is free already does nothing. */
  function FreeSlot(b: Buddy, i: nat): Buddy
    requires Inv(b) && Live(b.slots, i)
  {
    if IsFree(b.slots, i) then b
    else
      ReleaseKeepsInv(b, i);
      Coalesce(Release(b, i), i)
  }

  function Init(total: nat): Buddy {
    var top := LevelFor(total);
    Buddy(total, [Slot(0, total, top, Free)],
          seq(NUM_BUDDY_LEVELS, l => if l == top then [0] else []),
          [], INITIAL_CAPACITY, 0, 0)
  }

  // ----- the invariant

  /** `xs` holds exactly the free slots of one level, each once. */
  ghost predicate HoldsFree(slots: seq<Slot>, xs: seq<nat>, level: nat) {
    NoDup(xs) && forall i: nat :: i in xs <==> IsFree(slots, i) && slots[i].level == level
  }

  ghost predicate ListsOk(slots: seq<Slot>, lists: seq<seq<nat>>) {
    |lists| == NUM_BUDDY_LEVELS &&
    forall l :: 0 <= l < |lists| ==> HoldsFree(slots, lists[l], l)
  }

  /** The dead-slot stack holds exactly the dead slots, each once. */
  ghost predicate DeadOk(slots: seq<Slot>, dead: seq<nat>) {
    NoDup(dead) && forall i: nat :: i in dead <==> i < |slots| && slots[i].status == Dead
  }

  /** A recorded size is the size of the level; only the never split first block may record
      the pool size instead. */
  ghost predicate SizesOk(slots: seq<Slot>, total: nat) {
    forall i :: Live(slots, i) ==>
      || slots[i].size == LevelSize(slots[i].level)
      || (slots[i].level == LevelFor(total) && slots[i].size == total)
  }

  function LiveBytes(x: Slot): nat { if x.status == Dead then 0 else LevelSize(x.level) }
  function UsedBytes(x: Slot): nat { if x.status == Used then x.size else 0 }

  ghost predicate BytesOk(b: Buddy) {
    && Sum(b.slots, LiveBytes) == LevelSize(LevelFor(b.total))
    && b.allocatedBytes == Sum(b.slots, UsedBytes) <= b.peakBytes
  }

  ghost predicate Inv(b: Buddy) {
    && Tiled(b.slots, LevelFor(b.total))
    && SizesOk(b.slots, b.total)
    && ListsOk(b.slots, b.lists)
    && DeadOk(b.slots, b.dead)
    && BytesOk(b)
    && |b.slots| <= Pow2(LevelFor(b.total)) && |b.slots| <= b.capacity && INITIAL_CAPACITY <= b.capacity
  }

  lemma InitInv(total: nat)
    ensures Inv(Init(total)) && Coalesced(Init(total).slots)
  {
    var b := Init(total);
    InitTiled(total);
    assert SumTo(b.slots, 0, LiveBytes) == 0 && SumTo(b.slots, 0, UsedBytes) == 0;
    assert SumTo(b.slots, 1, LiveBytes) == LiveBytes(b.slots[0]);
    assert SumTo(b.slots, 1, UsedBytes) == UsedBytes(b.slots[0]);
    TopHasNoBuddy(b.slots, LevelFor(total), 0);
  }

  lemma InitTiled(total: nat)
    ensures Tiled(Init(total).slots, LevelFor(total))
  {
    var b := Init(total);
    forall a: nat | a < LevelSize(LevelFor(total))
      ensures CoveredAt(b.slots, a)
    {
      assert Covers(b.slots, 0, a);
    }
  }

  // ----- split

  lemma GrowKeepsInv(b: Buddy)
    requires Inv(b)
    ensures Inv(Grow(b)) && Grow(b).slots == b.slots
  {
    if NeedsGrowth(b) {
      var g := Grow(b);
      forall l | 0 <= l < |g.lists|
        ensures HoldsFree(g.slots, g.lists[l], l)
      {
        FreeBelowNoDup(b.slots, |b.slots|, l);
      }
    }
  }

  lemma SplitKeepsLists(slots: seq<Slot>, lists: seq<seq<nat>>, i: nat, j: nat)
    requires ListsOk(slots, lists) && IsFree(slots, i) && 0 < slots[i].level < |lists| && Vacant(slots, j)
    ensures ListsOk(SplitSlots(slots, i, j), SplitLists(lists, slots[i].level, i, j))
  {
    var x := slots[i];
    var r := SplitSlots(slots, i, j);
    var rl := SplitLists(lists, x.level, i, j);
    WithoutRemoves(lists[x.level], i);
    assert HoldsFree(slots, lists[x.level - 1], x.level - 1);
    forall l | 0 <= l < |rl|
      ensures HoldsFree(r, rl[l], l)
    {
      assert HoldsFree(slots, lists[l], l);
    }
  }

  lemma SplitKeepsDead(slots: seq<Slot>, dead: seq<nat>, i: nat, j: nat)
    requires DeadOk(slots, dead) && IsFree(slots, i) && slots[i].level > 0
    requires Vacant(slots, j) && j == if dead != [] then dead[0] else |slots|
    ensures DeadOk(SplitSlots(slots, i, j), if dead != [] then dead[1..] else [])
  {
    var r := SplitSlots(slots, i, j);
    var rest := if dead != [] then dead[1..] else [];
    assert dead != [] ==> dead[0] in dead && dead == [dead[0]] + rest && dead[0] !in rest;
    forall k: nat
      ensures k in rest <==> k < |r| && r[k].status == Dead
    {
      assert k in rest ==> k in dead;
      assert k in dead && k != j ==> k in rest;
    }
  }

  lemma SplitKeepsSizes(slots: seq<Slot>, total: nat, i: nat, j: nat)
    requires SizesOk(slots, total) && IsFree(slots, i) && slots[i].level > 0 && Vacant(slots, j)
    ensures SizesOk(SplitSlots(slots, i, j), total)
  {
    var r := SplitSlots(slots, i, j);
    forall k | Live(r, k) && k != i && k != j
      ensures Live(slots, k) && r[k] == slots[k]
    {
    }
  }

  lemma {:induction false} AllLiveCount(slots: seq<Slot>, n: nat)
    requires n <= |slots| && forall i :: 0 <= i < |slots| ==> slots[i].status != Dead
    ensures MIN_BLOCK_SIZE * n <= SumTo(slots, n, LiveBytes)
  {
    if n != 0 {
      AllLiveCount(slots, n - 1);
      assert LiveBytes(slots[n - 1]) >= MIN_BLOCK_SIZE;
    }
  }

  lemma SplitSum(slots: seq<Slot>, w: Slot -> nat, i: nat, j: nat, x: Slot, y: Slot)
    requires i < |slots| && j <= |slots| && i != j
    requires w(slots[i]) + (if j < |slots| then w(slots[j]) else 0) == w(x) + w(y)
    ensures Sum(Put(slots[i := x], j, y), w) == Sum(slots, w)
  {
    SumPut(slots, w, i, x);
    SumPut(slots[i := x], w, j, y);
  }

  lemma SplitKeepsLiveBytes(slots: seq<Slot>, i: nat, j: nat)
    requires IsFree(slots, i) && slots[i].level > 0 && Vacant(slots, j)
    ensures Sum(SplitSlots(slots, i, j), LiveBytes) == Sum(slots, LiveBytes)
  {
    var l := slots[i].level - 1;
    var x := slots[i].(level := l, size := LevelSize(l));
    var y := Slot(slots[i].offset + LevelSize(l), LevelSize(l), l, Free);
    assert LiveBytes(x) + LiveBytes(y) == LiveBytes(slots[i]) by {
      assert LevelSize(slots[i].level) == 2 * LevelSize(l);
    }
    assert j < |slots| ==> LiveBytes(slots[j]) == 0;
    SplitSum(slots, LiveBytes, i, j, x, y);
  }

  lemma SplitKeepsUsedBytes(slots: seq<Slot>, i: nat, j: nat)
    requires IsFree(slots, i) && slots[i].level > 0 && Vacant(slots, j)
    ensures Sum(SplitSlots(slots, i, j), UsedBytes) == Sum(slots, UsedBytes)
  {
    var l := slots[i].level - 1;
    var x := slots[i].(level := l, size := LevelSize(l));
    var y := Slot(slots[i].offset + LevelSize(l), LevelSize(l), l, Free);
    assert UsedBytes(x) + UsedBytes(y) == UsedBytes(slots[i]);
    assert j < |slots| ==> UsedBytes(slots[j]) == 0;
    SplitSum(slots, UsedBytes, i, j, x, y);
  }

  lemma SplitKeepsInv(b: Buddy, i: nat)
    requires Inv(b) && IsFree(b.slots, i) && b.slots[i].level > 0
    ensures Inv(Split(b, i))
  {
    GrowKeepsInv(b);
    var g := Grow(b);
    var j := NextSlot(g);
    NextSlotIsVacant(g);
    SplitKeepsTiling(g.slots, LevelFor(b.total), i, j);
    SplitKeepsLists(g.slots, g.lists, i, j);
    SplitKeepsLiveBytes(g.slots, i, j);
    SplitKeepsUsedBytes(g.slots, i, j);
    SplitKeepsSizes(g.slots, b.total, i, j);
    SplitKeepsDead(g.slots, g.dead, i, j);
    if g.dead == [] {
      AllLiveCount(Split(b, i).slots, |Split(b, i).slots|);
    }
  }

  /** The same slots are allocated, with the same contents. */
  ghost predicate SameUsed(s: seq<Slot>, r: seq<Slot>) {
    && (forall k :: IsUsed(s, k) ==> IsUsed(r, k) && r[k] == s[k])
    && (forall k :: IsUsed(r, k) ==> IsUsed(s, k))
  }

  lemma SplitFrame(slots: seq<Slot>, i: nat, j: nat)
    requires IsFree(slots, i) && slots[i].level > 0 && Vacant(slots, j)
    ensures var r := SplitSlots(slots, i, j);
            && SameUsed(slots, r) && IsFree(r, i)
            && r[i] == slots[i].(level := slots[i].level - 1, size := LevelSize(slots[i].level - 1))
  {
  }

  /** One split as a whole: invariant, frame and coalescing. */
  lemma SplitStep(b: Buddy, i: nat)
    requires Inv(b) && IsFree(b.slots, i) && b.slots[i].level > 0
    ensures var r := Split(b, i);
            && Inv(r) && SameUsed(b.slots, r.slots) && IsFree(r.slots, i)
            && r.slots[i] == b.slots[i].(level := b.slots[i].level - 1, size := LevelSize(b.slots[i].level - 1))
            && (CoalescedExcept(b.slots, i) ==> CoalescedExcept(r.slots, i))
  {
    SplitKeepsInv(b, i);
    GrowKeepsInv(b);
    var j := NextSlot(Grow(b));
    NextSlotIsVacant(Grow(b));
    SplitFrame(b.slots, i, j);
    if CoalescedExcept(b.slots, i) {
      SplitKeepsCoalesced(b.slots, LevelFor(b.total), i, j);
    }
  }

  /** Splitting a block down keeps the invariant and touches no allocated slot. */
  lemma {:induction false} SplitDownKeepsInv(b: Buddy, i: nat, level: nat, growOk: bool)
    requires Inv(b) && IsFree(b.slots, i)
    ensures var r := SplitDown(b, i, level, growOk);
            && Inv(r) && IsFree(r.slots, i) && SameUsed(b.slots, r.slots)
            && SameFields(b, r)
            && (CoalescedExcept(b.slots, i) ==> CoalescedExcept(r.slots, i))
    decreases b.slots[i].level
  {
    if b.slots[i].level > level && (NeedsGrowth(b) ==> growOk) {
      SplitStep(b, i);
      SplitDownKeepsInv(Split(b, i), i, level, growOk);
      SameUsedTrans(b.slots, Split(b, i).slots, SplitDown(b, i, level, growOk).slots);
    }
  }

  lemma {:induction false} SplitDownReaches(b: Buddy, i: nat, level: nat, growOk: bool)
    requires Inv(b) && IsFree(b.slots, i) && b.slots[i].level > level
    ensures var r := SplitDown(b, i, level, growOk);
            && i < |r.slots| && r.slots[i].offset == b.slots[i].offset
            && (growOk ==> r.slots[i].level <= level)
            && (r.slots[i].level <= level ==> r.slots[i].level == level && r.slots[i].size == LevelSize(level))
    decreases b.slots[i].level
  {
    if NeedsGrowth(b) ==> growOk {
      SplitStep(b, i);
      if b.slots[i].level > level + 1 {
        SplitDownReaches(Split(b, i), i, level, growOk);
      }
    }
  }

  // ----- take and release

  lemma StatusKeepsRest(b: Buddy, i: nat, st: Status)
    requires Inv(b) && Live(b.slots, i) && st != Dead
    ensures var r := b.slots[i := b.slots[i].(status := st)];
            && Tiled(r, LevelFor(b.total)) && SizesOk(r, b.total) && DeadOk(r, b.dead)
            && Sum(r, LiveBytes) == Sum(b.slots, LiveBytes)
            && Sum(r, UsedBytes) + UsedBytes(b.slots[i]) == Sum(b.slots, UsedBytes) + UsedBytes(r[i])
  {
    var y := b.slots[i].(status := st);
    StatusKeepsTiling(b.slots, LevelFor(b.total), i, st);
    SumPut(b.slots, LiveBytes, i, y);
    SumPut(b.slots, UsedBytes, i, y);
    StatusKeepsSizes(b.slots, b.total, i, st);
    StatusKeepsDead(b.slots, b.dead, i, st);
  }

  lemma StatusKeepsSizes(slots: seq<Slot>, total: nat, i: nat, st: Status)
    requires SizesOk(slots, total) && Live(slots, i) && st != Dead
    ensures SizesOk(slots[i := slots[i].(status := st)], total)
  {
    var r := slots[i := slots[i].(status := st)];
    forall k | Live(r, k)
      ensures Live(slots, k) && r[k].size == slots[k].size && r[k].level == slots[k].level
    {
    }
  }

  lemma StatusKeepsDead(slots: seq<Slot>, dead: seq<nat>, i: nat, st: Status)
    requires DeadOk(slots, dead) && Live(slots, i) && st != Dead
    ensures DeadOk(slots[i := slots[i].(status := st)], dead)
  {
  }

  lemma TakeKeepsLists(slots: seq<Slot>, lists: seq<seq<nat>>, i: nat)
    requires ListsOk(slots, lists) && IsFree(slots, i) && slots[i].level < |lists|
    ensures var l := slots[i].level;
            ListsOk(slots[i := slots[i].(status := Used)], lists[l := Without(lists[l], i)])
  {
    var l := slots[i].level;
    var r, rl := slots[i := slots[i].(status := Used)], lists[l := Without(lists[l], i)];
    WithoutRemoves(lists[l], i);
    forall k | 0 <= k < |rl|
      ensures HoldsFree(r, rl[k], k)
    {
      assert HoldsFree(slots, lists[k], k);
    }
  }

  lemma TakeKeepsInv(b: Buddy, i: nat)
    requires Inv(b) && IsFree(b.slots, i)
    ensures Inv(Take(b, i))
  {
    StatusKeepsRest(b, i, Used);
    TakeKeepsLists(b.slots, b.lists, i);
  }

  lemma TakeCoalesces(slots: seq<Slot>, i: nat)
    requires CoalescedExcept(slots, i) && IsFree(slots, i)
    ensures Coalesced(slots[i := slots[i].(status := Used)])
  {
    var r := slots[i := slots[i].(status := Used)];
    forall p, q | FreePair(r, p, q)
      ensures FreePair(slots, p, q) && p != i && q != i
    {
    }
  }

  lemma ReleaseKeepsLists(slots: seq<Slot>, lists: seq<seq<nat>>, i: nat)
    requires ListsOk(slots, lists) && IsUsed(slots, i) && slots[i].level < |lists|
    ensures var l := slots[i].level;
            ListsOk(slots[i := slots[i].(status := Free)], lists[l := [i] + lists[l]])
  {
    var l := slots[i].level;
    var r, rl := slots[i := slots[i].(status := Free)], lists[l := [i] + lists[l]];
    forall k | 0 <= k < |rl|
      ensures HoldsFree(r, rl[k], k)
    {
      assert HoldsFree(slots, lists[k], k);
    }
  }

  lemma ReleaseKeepsInv(b: Buddy, i: nat)
    requires Inv(b) && IsUsed(b.slots, i)
    ensures Inv(Release(b, i))
  {
    StatusKeepsRest(b, i, Free);
    ReleaseKeepsLists(b.slots, b.lists, i);
  }

  lemma ReleaseCoalesces(slots: seq<Slot>, i: nat)
    requires Coalesced(slots) && IsUsed(slots, i)
    ensures CoalescedExcept(slots[i := slots[i].(status := Free)], i)
  {
    var r := slots[i := slots[i].(status := Free)];
    forall p, q | FreePair(r, p, q)
      ensures FreePair(slots, p, q) || p == i || q == i
    {
    }
  }

  // ----- merge

  lemma WithoutMembers(xs: seq<nat>, i: nat, x: nat)
    requires NoDup(xs)
    ensures x in Without(xs, i) <==> x in xs && x != i
  {
    WithoutRemoves(xs, i);
  }

  /** Both halves leave the list of their level. */
  lemma MergeLeavesList(slots: seq<Slot>, xs: seq<nat>, i: nat, j: nat, lo: nat, hi: nat)
    requires Halves(slots, lo, hi) && HoldsFree(slots, xs, slots[lo].level)
    requires (lo == i && hi == j) || (lo == j && hi == i)
    ensures HoldsFree(MergeSlots(slots, lo, hi), Without(Without(xs, i), j), slots[lo].level)
  {
    WithoutRemoves(xs, i);
    WithoutRemoves(Without(xs, i), j);
    hide NoDup, Without, LevelSize, Multiple;
    var r, ys := MergeSlots(slots, lo, hi), Without(Without(xs, i), j);
    forall x: nat
      ensures x in ys <==> IsFree(r, x) && r[x].level == slots[lo].level
    {
      WithoutMembers(xs, i, x);
      WithoutMembers(Without(xs, i), j, x);
    }
  }

  lemma MergeKeepsOtherList(slots: seq<Slot>, xs: seq<nat>, lo: nat, hi: nat, k: nat)
    requires Halves(slots, lo, hi) && HoldsFree(slots, xs, k) && k != slots[lo].level
    ensures HoldsFree(MergeSlots(slots, lo, hi), if k == slots[lo].level + 1 then [lo] + xs else xs, k)
  {
    hide LevelSize, Multiple;
    var r := MergeSlots(slots, lo, hi);
    forall x: nat
      ensures IsFree(r, x) && r[x].level == k <==> (IsFree(slots, x) && slots[x].level == k) || (x == lo && k == slots[lo].level + 1)
    {
    }
  }

  lemma MergeKeepsLists(slots: seq<Slot>, lists: seq<seq<nat>>, i: nat, j: nat, lo: nat, hi: nat)
    requires ListsOk(slots, lists) && Halves(slots, lo, hi)
    requires (lo == i && hi == j) || (lo == j && hi == i)
    requires slots[i].level + 1 < |lists|
    ensures ListsOk(MergeSlots(slots, lo, hi), MergeLists(lists, slots[i].level, i, j, lo))
  {
    var rl := MergeLists(lists, slots[i].level, i, j, lo);
    forall k | 0 <= k < |rl|
      ensures HoldsFree(MergeSlots(slots, lo, hi), rl[k], k)
    {
      assert HoldsFree(slots, lists[k], k);
      hide HoldsFree, MergeSlots;
      if k == slots[lo].level {
        MergeLeavesList(slots, lists[k], i, j, lo, hi);
      } else {
        MergeKeepsOtherList(slots, lists[k], lo, hi, k);
      }
    }
  }

  lemma MergeKeepsBytes(slots: seq<Slot>, lo: nat, hi: nat)
    requires Halves(slots, lo, hi)
    ensures Sum(MergeSlots(slots, lo, hi), LiveBytes) == Sum(slots, LiveBytes)
    ensures Sum(MergeSlots(slots, lo, hi), UsedBytes) == Sum(slots, UsedBytes)
  {
    var l := slots[lo].level + 1;
    var x := slots[lo].(level := l, size := LevelSize(l));
    var y := slots[hi].(status := Dead);
    SplitSum(slots, LiveBytes, lo, hi, x, y);
    SplitSum(slots, UsedBytes, lo, hi, x, y);
  }

  lemma MergeKeepsSizes(slots: seq<Slot>, total: nat, lo: nat, hi: nat)
    requires SizesOk(slots, total) && Halves(slots, lo, hi)
    ensures SizesOk(MergeSlots(slots, lo, hi), total)
  {
    var r := MergeSlots(slots, lo, hi);
    forall k | Live(r, k) && k != lo
      ensures Live(slots, k) && r[k] == slots[k]
    {
    }
  }

  lemma MergeKeepsDead(slots: seq<Slot>, dead: seq<nat>, lo: nat, hi: nat)
    requires DeadOk(slots, dead) && Halves(slots, lo, hi)
    ensures DeadOk(MergeSlots(slots, lo, hi), [hi] + dead)
  {
  }

  lemma MergeKeepsInv(b: Buddy, i: nat, j: nat)
    requires Inv(b) && IsFree(b.slots, i) && IsFree(b.slots, j) && Buddies(b.slots[i], b.slots[j])
    requires b.slots[i].level + 1 < NUM_BUDDY_LEVELS
    ensures Inv(Merge(b, i, j))
    ensures IsFree(Merge(b, i, j).slots, Lower(b.slots, i, j))
  {
    var top := LevelFor(b.total);
    BuddiesAreHalves(b.slots, top, i, j);
    var lo := Lower(b.slots, i, j);
    var hi := if lo == i then j else i;
    MergeKeepsTiling(b.slots, top, lo, hi);
    MergeKeepsLists(b.slots, b.lists, i, j, lo, hi);
    MergeKeepsBytes(b.slots, lo, hi);
    MergeKeepsSizes(b.slots, b.total, lo, hi);
    MergeKeepsDead(b.slots, b.dead, lo, hi);
  }

  lemma MergeFrame(slots: seq<Slot>, lo: nat, hi: nat)
    requires IsFree(slots, lo) && IsFree(slots, hi)
    ensures SameUsed(slots, MergeSlots(slots, lo, hi))
  {
  }

  /** Total, counters and peak are those of before. */
  predicate SameFields(b: Buddy, r: Buddy) {
    r.total == b.total && r.allocatedBytes == b.allocatedBytes && r.peakBytes == b.peakBytes
  }

  /** One merge as a whole: invariant, frame and coalescing. */
  lemma MergeStep(b: Buddy, i: nat, j: nat)
    requires Inv(b) && IsFree(b.slots, i) && IsFree(b.slots, j) && Buddies(b.slots[i], b.slots[j])
    requires b.slots[i].level + 1 < NUM_BUDDY_LEVELS
    ensures var r, lo := Merge(b, i, j), Lower(b.slots, i, j);
            && i != j && Inv(r) && SameUsed(b.slots, r.slots) && IsFree(r.slots, lo)
            && r.slots[lo].level == b.slots[i].level + 1
            && SameFields(b, r) && |r.slots| == |b.slots|
            && (CoalescedExcept(b.slots, i) ==> CoalescedExcept(r.slots, lo))
  {
    MergeKeepsInv(b, i, j);
    var lo := Lower(b.slots, i, j);
    var hi := if lo == i then j else i;
    MergeFrame(b.slots, lo, hi);
    BuddiesAreHalves(b.slots, LevelFor(b.total), i, j);
    if CoalescedExcept(b.slots, i) {
      MergeKeepsCoalesced(b.slots, lo, hi, i);
    }
  }

  /** Coalescing keeps the invariant, touches no allocated slot, and goes on until no buddy
      pair is left. */
  lemma {:induction false} CoalesceKeepsInv(b: Buddy, i: nat)
    requires Inv(b) && IsFree(b.slots, i)
    ensures var r := Coalesce(b, i);
            && Inv(r) && SameFields(b, r)
            && SameUsed(b.slots, r.slots) && |r.slots| == |b.slots|
            && (CoalescedExcept(b.slots, i) ==> Coalesced(r.slots))
    decreases NUM_BUDDY_LEVELS - b.slots[i].level
  {
    hide Inv, SameUsed, CoalescedExcept, Coalesced;
    SameUsedRefl(b.slots);
    if b.slots[i].level >= NUM_BUDDY_LEVELS - 1 {
      TopIsCoalesced(b, i);
    } else {
      var j := BuddyOf(b, i);
      if j == |b.slots| {
        NoBuddyMeansCoalesced(b, i);
      } else {
        hide Merge, Lower;
        MergeStep(b, i, j);
        var m, lo := Merge(b, i, j), Lower(b.slots, i, j);
        CoalesceKeepsInv(m, lo);
        SameUsedTrans(b.slots, m.slots, Coalesce(m, lo).slots);
      }
    }
  }

  lemma TopIsCoalesced(b: Buddy, i: nat)
    requires Inv(b) && IsFree(b.slots, i) && b.slots[i].level >= NUM_BUDDY_LEVELS - 1
    ensures Coalesced(b.slots)
  {
    TopHasNoBuddy(b.slots, LevelFor(b.total), i);
  }

  lemma SameUsedRefl(s: seq<Slot>)
    ensures SameUsed(s, s)
  {
  }

  lemma SameUsedTrans(s: seq<Slot>, t: seq<Slot>, u: seq<Slot>)
    requires SameUsed(s, t) && SameUsed(t, u)
    ensures SameUsed(s, u)
  {
  }

  lemma NoBuddyMeansCoalesced(b: Buddy, i: nat)
    requires Inv(b) && IsFree(b.slots, i) && BuddyOf(b, i) == |b.slots|
    ensures CoalescedExcept(b.slots, i) ==> Coalesced(b.slots)
  {
    var slots := b.slots;
    forall p, q | CoalescedExcept(slots, i) && FreePair(slots, p, q)
      ensures false
    {
      BuddyOfAligned(slots[p].offset, slots[p].level);
    }
  }

  /** A tile of the top level is the whole pool, so it has no free buddy. */
  lemma TopHasNoBuddy(slots: seq<Slot>, top: nat, i: nat)
    requires Tiled(slots, top) && IsFree(slots, i) && slots[i].level >= top
    ensures Coalesced(slots)
  {
    assert Aligned(slots[i]) by { assert Live(slots, i); }
    NotOwnBuddy(slots[i]);
    forall p, q | FreePair(slots, p, q)
      ensures false
    {
      hide Tiled, Buddies;
      TopIsAlone(slots, top, i, p);
      TopIsAlone(slots, top, i, q);
    }
  }

  lemma TopIsAlone(slots: seq<Slot>, top: nat, i: nat, p: nat)
    requires Tiled(slots, top) && Live(slots, i) && slots[i].level >= top && Live(slots, p)
    ensures p == i
  {
    assert TwoLive(slots, i, p) || p == i;
    hide Multiple, LevelSize, CoveredAt;
  }

  lemma NotOwnBuddy(x: Slot)
    requires Aligned(x)
    ensures !Buddies(x, x)
  {
    BuddyOfAligned(x.offset, x.level);
  }

  // ----- whole operations

  /** The same slots are allocated, with the same contents, apart from slot i. */
  ghost predicate SameUsedExcept(s: seq<Slot>, r: seq<Slot>, i: nat) {
    && (forall k :: IsUsed(s, k) && k != i ==> IsUsed(r, k) && r[k] == s[k])
    && (forall k :: IsUsed(r, k) && k != i ==> IsUsed(s, k))
  }

  lemma HeadIsFree(b: Buddy, l: nat)
    requires Inv(b) && l < NUM_BUDDY_LEVELS && b.lists[l] != []
    ensures IsFree(b.slots, b.lists[l][0]) && b.slots[b.lists[l][0]].level == l
  {
    assert HoldsFree(b.slots, b.lists[l], l);
    assert b.lists[l][0] in b.lists[l];
  }

  lemma CoalescedWeaken(slots: seq<Slot>, i: nat)
    requires Coalesced(slots)
    ensures CoalescedExcept(slots, i)
  {
  }

  lemma TakeFrame(s: seq<Slot>, t: seq<Slot>, i: nat)
    requires SameUsed(s, t) && IsFree(t, i)
    ensures var r := t[i := t[i].(status := Used)];
            !IsUsed(s, i) && IsUsed(r, i) && SameUsedExcept(s, r, i)
  {
  }

  /** `r` is `b` with slot i newly allocated at the given level and no other allocation changed. */
  ghost predicate Granted(b: Buddy, r: Buddy, i: nat, level: nat) {
    && !IsUsed(b.slots, i) && IsUsed(r.slots, i)
    && SameUsedExcept(b.slots, r.slots, i)
    && r.slots[i].level == level
    && r.allocatedBytes == b.allocatedBytes + r.slots[i].size
  }

  lemma SplitAndTake(b: Buddy, i: nat, level: nat, growOk: bool)
    requires Inv(b) && IsFree(b.slots, i) && b.slots[i].level >= level
    ensures var d := SplitDown(b, i, level, growOk);
            && Inv(d) && IsFree(d.slots, i)
            && (d.slots[i].level <= level ==> Inv(Take(d, i)) && Granted(b, Take(d, i), i, level))
  {
    SplitDownKeepsInv(b, i, level, growOk);
    if b.slots[i].level > level {
      SplitDownReaches(b, i, level, growOk);
    }
    var d := SplitDown(b, i, level, growOk);
    TakeKeepsInv(d, i);
    TakeFrame(b.slots, d.slots, i);
  }

  /** A granted slot was not allocated before, has exactly the level of the request, and is
      the only change to the allocated slots; a refused request changes none of them. */
  lemma AllocKeepsInv(b: Buddy, size: nat, alignment: nat, growOk: bool)
    requires Inv(b)
    ensures var (r, res) := Alloc(b, size, alignment, growOk);
            && Inv(r) && r.total == b.total
            && (res.None? ==> SameUsed(b.slots, r.slots) && r.allocatedBytes == b.allocatedBytes)
            && (res.Some? ==> && Granted(b, r, res.value, RequestLevel(size, alignment))
                              && size <= MAX_BLOCK_SIZE && alignment <= MAX_BLOCK_SIZE)
  {
    var level := RequestLevel(size, alignment);
    var l := FirstNonempty(b.lists, level);
    if size <= MAX_BLOCK_SIZE && alignment <= MAX_BLOCK_SIZE && l < NUM_BUDDY_LEVELS {
      HeadIsFree(b, l);
      SplitAndTake(b, b.lists[l][0], level, growOk);
      SplitDownKeepsInv(b, b.lists[l][0], level, growOk);
    }
  }

  lemma AllocKeepsCoalesced(b: Buddy, size: nat, alignment: nat, growOk: bool)
    requires Inv(b) && Coalesced(b.slots)
    ensures var (r, res) := Alloc(b, size, alignment, growOk);
            res.Some? || r == b ==> Coalesced(r.slots)
  {
    var level := RequestLevel(size, alignment);
    var l := FirstNonempty(b.lists, level);
    if size <= MAX_BLOCK_SIZE && alignment <= MAX_BLOCK_SIZE && l < NUM_BUDDY_LEVELS {
      hide Inv, SameUsed, CoalescedExcept, Coalesced, SplitDown, SameFields, RequestLevel;
      var i := b.lists[l][0];
      HeadIsFree(b, l);
      CoalescedWeaken(b.slots, i);
      SplitDownKeepsInv(b, i, level, growOk);
      TakeCoalesces(SplitDown(b, i, level, growOk).slots, i);
    }
  }

  lemma FreeKeepsInv(b: Buddy, i: nat)
    requires Inv(b) && IsUsed(b.slots, i)
    ensures var r := FreeSlot(b, i);
            && Inv(r) && r.total == b.total
            && !IsUsed(r.slots, i) && SameUsedExcept(b.slots, r.slots, i)
            && r.allocatedBytes == b.allocatedBytes - b.slots[i].size
            && |r.slots| == |b.slots|
            && (Coalesced(b.slots) ==> Coalesced(r.slots))
  {
    ReleaseKeepsInv(b, i);
    if Coalesced(b.slots) {
      ReleaseCoalesces(b.slots, i);
    }
    var m := Release(b, i);
    CoalesceKeepsInv(m, i);
    ReleaseFrame(b.slots, Coalesce(m, i).slots, i);
  }

  lemma ReleaseFrame(s: seq<Slot>, r: seq<Slot>, i: nat)
    requires IsUsed(s, i) && SameUsed(s[i := s[i].(status := Free)], r)
    ensures !IsUsed(r, i) && SameUsedExcept(s, r, i)
  {
    var t := s[i := s[i].(status := Free)];
    forall k | k != i
      ensures IsUsed(s, k) ==> IsUsed(t, k) && t[k] == s[k]
      ensures IsUsed(t, k) ==> IsUsed(s, k)
    {
    }
  }

  /** Some aligned range of the size of level k in the pool holds no live allocation. */
  ghost predicate HasRoom(b: Buddy, k: nat) {
    exists r: nat :: && Multiple(LevelSize(k), r)
                     && r + LevelSize(k) <= LevelSize(LevelFor(b.total))
                     && NothingUsedIn(b.slots, r, k)
  }

  /** In a coalesced pool whose slot array can grow, a request succeeds exactly when it is
      within the size limits and some aligned range of its block size has no live
      allocation in it. */
  lemma AllocSucceedsIffRoom(b: Buddy, size: nat, alignment: nat)
    requires Inv(b) && Coalesced(b.slots)
    ensures Alloc(b, size, alignment, true).1.Some?
       <==> && size <= MAX_BLOCK_SIZE && alignment <= MAX_BLOCK_SIZE
            && HasRoom(b, RequestLevel(size, alignment))
  {
    var k := RequestLevel(size, alignment);
    FreeTileIffRoom(b.slots, LevelFor(b.total), k);
    ListedIffFree(b, k);
    hide Inv, Coalesced, SameUsed, RequestLevel, SplitDown, NothingUsedIn, Multiple;
    var l := FirstNonempty(b.lists, k);
    if l < NUM_BUDDY_LEVELS {
      HeadIsFree(b, l);
      SplitAndTakeSucceeds(b, b.lists[l][0], k);
    }
  }

  /** Some list from level k up is not empty exactly when there is a free block of at least
      that level. */
  lemma ListedIffFree(b: Buddy, k: nat)
    requires Inv(b) && k <= NUM_BUDDY_LEVELS
    ensures |b.lists| == NUM_BUDDY_LEVELS
    ensures FirstNonempty(b.lists, k) < NUM_BUDDY_LEVELS <==> exists i :: IsFree(b.slots, i) && b.slots[i].level >= k
  {
    hide LevelFor, Multiple, LevelSize;
    var l := FirstNonempty(b.lists, k);
    if l < NUM_BUDDY_LEVELS {
      HeadIsFree(b, l);
    } else {
      forall i | IsFree(b.slots, i)
        ensures b.slots[i].level < k
      {
        assert HoldsFree(b.slots, b.lists[b.slots[i].level], b.slots[i].level);
        assert i in b.lists[b.slots[i].level];
      }
    }
  }

  lemma SplitAndTakeSucceeds(b: Buddy, i: nat, k: nat)
    requires Inv(b) && IsFree(b.slots, i) && k <= b.slots[i].level
    ensures var d := SplitDown(b, i, k, true);
            i < |d.slots| && d.slots[i].level <= k
  {
    if k < b.slots[i].level {
      SplitDownReaches(b, i, k, true);
    }
  }

  // ----- when the slot array cannot grow

  /** Slots a run of splits can take without growing the slot array. */
  function SpareSlots(b: Buddy): int {
    |b.dead| + b.capacity - |b.slots|
  }

  lemma SplitTakesSpare(b: Buddy, i: nat)
    requires Inv(b) && IsFree(b.slots, i) && b.slots[i].level > 0 && !NeedsGrowth(b)
    ensures SpareSlots(Split(b, i)) == SpareSlots(b) - 1
  {
    NextSlotIsVacant(b);
  }

  /** Without growth, a split chain reaches its level exactly when enough spare slots exist. */
  lemma {:induction false} SplitDownNeedsSpare(b: Buddy, i: nat, level: nat)
    requires Inv(b) && IsFree(b.slots, i) && b.slots[i].level >= level
    ensures var r := SplitDown(b, i, level, false);
            && i < |r.slots| && level <= r.slots[i].level <= b.slots[i].level
            && (r.slots[i].level == level <==> b.slots[i].level - level <= SpareSlots(b))
            && (r.slots[i].level < b.slots[i].level || r == b)
            && (r == b <==> SpareSlots(b) == 0 || b.slots[i].level == level)
    decreases b.slots[i].level
  {
    if b.slots[i].level > level && !NeedsGrowth(b) {
      SplitStep(b, i);
      SplitTakesSpare(b, i);
      SplitDownNeedsSpare(Split(b, i), i, level);
    }
  }

  /** A chain that took at least one step leaves slot i free beside its free buddy. */
  lemma {:induction false} SplitDownLeavesPair(b: Buddy, i: nat, level: nat)
    requires Inv(b) && IsFree(b.slots, i) && b.slots[i].level > level && !NeedsGrowth(b)
    ensures !Coalesced(SplitDown(b, i, level, false).slots)
    decreases b.slots[i].level
  {
    SplitStep(b, i);
    assert Aligned(b.slots[i]) by { assert Live(b.slots, i); }
    NextSlotIsVacant(b);
    hide Inv, SameUsed, SplitSlots;
    SplitMakesBuddies(b.slots, i, NextSlot(b));
    var s := Split(b, i);
    if s.slots[i].level > level && !NeedsGrowth(s) {
      SplitDownLeavesPair(s, i, level);
    }
  }

  /** Growth failure is the one way an allocation leaves free buddies apart: it does so
      exactly when the request is in range, a larger free block exists, and the spare slots
      suffice for some of the splits it needs but not for all. */
  lemma AllocCoalescedIff(b: Buddy, size: nat, alignment: nat, growOk: bool)
    requires Inv(b) && Coalesced(b.slots)
    ensures Coalesced(Alloc(b, size, alignment, growOk).0.slots)
       <==> !(&& !growOk && size <= MAX_BLOCK_SIZE && alignment <= MAX_BLOCK_SIZE
              && var k := RequestLevel(size, alignment);
                 var l := FirstNonempty(b.lists, k);
                 l < NUM_BUDDY_LEVELS && 0 < SpareSlots(b) < l - k)
  {
    AllocKeepsCoalesced(b, size, alignment, growOk);
    var k := RequestLevel(size, alignment);
    var l := FirstNonempty(b.lists, k);
    if size <= MAX_BLOCK_SIZE && alignment <= MAX_BLOCK_SIZE && l < NUM_BUDDY_LEVELS {
      HeadIsFree(b, l);
      var i := b.lists[l][0];
      SplitAndTake(b, i, k, growOk);
      if growOk {
        if l > k {
          SplitDownReaches(b, i, k, true);
        }
      } else {
        SplitDownNeedsSpare(b, i, k);
        if l > k && !NeedsGrowth(b) {
          SplitDownLeavesPair(b, i, k);
        }
      }
    }
  }

  /** Such a request is refused. */
  lemma AllocCutOff(b: Buddy, size: nat, alignment: nat, l: nat)
    requires Inv(b) && Coalesced(b.slots) && size <= MAX_BLOCK_SIZE && alignment <= MAX_BLOCK_SIZE
    requires |b.lists| == NUM_BUDDY_LEVELS
    requires l == FirstNonempty(b.lists, RequestLevel(size, alignment)) < NUM_BUDDY_LEVELS
    requires 0 < SpareSlots(b) < l - RequestLevel(size, alignment)
    ensures var (r, res) := Alloc(b, size, alignment, false);
            res.None? && !Coalesced(r.slots)
  {
    hide Inv, Coalesced, SpareSlots, SplitDown, Take;
    AllocCoalescedIff(b, size, alignment, false);
    HeadIsFree(b, l);
    SplitDownNeedsSpare(b, b.lists[l][0], RequestLevel(size, alignment));
  }

  /** Without growth a request is granted exactly when it is within the limits, a list from
      its level up is not empty, and the spare slots suffice for the splits from there. */
  lemma AllocWithoutGrowthIff(b: Buddy, size: nat, alignment: nat)
    requires Inv(b)
    ensures |b.lists| == NUM_BUDDY_LEVELS
    ensures Alloc(b, size, alignment, false).1.Some?
       <==> && size <= MAX_BLOCK_SIZE && alignment <= MAX_BLOCK_SIZE
            && var k := RequestLevel(size, alignment);
               var l := FirstNonempty(b.lists, k);
               l < NUM_BUDDY_LEVELS && l - k <= SpareSlots(b)
  {
    var k := RequestLevel(size, alignment);
    ListedIffFree(b, k);
    var l := FirstNonempty(b.lists, k);
    hide Inv, RequestLevel, SpareSlots, SplitDown;
    if l < NUM_BUDDY_LEVELS {
      HeadIsFree(b, l);
      SplitDownNeedsSpare(b, b.lists[l][0], k);
    }
  }

  // ----- peak and capacity

  function Larger(x: int, y: int): int { if x > y then x else y }

  /** The peak after a request is the larger of the peak before and what is allocated now. */
  lemma AllocPeak(b: Buddy, size: nat, alignment: nat, growOk: bool)
    requires Inv(b)
    ensures var r := Alloc(b, size, alignment, growOk).0;
            r.peakBytes == Larger(b.peakBytes, r.allocatedBytes)
  {
    var k := RequestLevel(size, alignment);
    var l := FirstNonempty(b.lists, k);
    assert b.allocatedBytes <= b.peakBytes;
    hide Inv, RequestLevel, SplitDown, SameUsed, CoalescedExcept;
    if size <= MAX_BLOCK_SIZE && alignment <= MAX_BLOCK_SIZE && l < NUM_BUDDY_LEVELS {
      HeadIsFree(b, l);
      SplitDownKeepsInv(b, b.lists[l][0], k, growOk);
    }
  }

  lemma FreePeak(b: Buddy, i: nat)
    requires Inv(b) && Live(b.slots, i)
    ensures FreeSlot(b, i).peakBytes == b.peakBytes
  {
    hide SameUsed, CoalescedExcept, Coalesce, Inv;
    if !IsFree(b.slots, i) {
      ReleaseKeepsInv(b, i);
      CoalesceKeepsInv(Release(b, i), i);
    }
  }

  /** The array has doubled g times since the start, each time because it was full. */
  ghost predicate Doubled(b: Buddy, g: nat) {
    b.capacity == INITIAL_CAPACITY * Pow2(g) && (g > 0 ==> b.capacity <= 2 * |b.slots|)
  }

  lemma SplitDoubles(b: Buddy, i: nat, g: nat) returns (h: nat)
    requires Inv(b) && IsFree(b.slots, i) && b.slots[i].level > 0 && Doubled(b, g)
    ensures g <= h <= g + 1 && Doubled(Split(b, i), h) && (h > g <==> NeedsGrowth(b))
    ensures |b.slots| <= |Split(b, i).slots|
  {
    h := if NeedsGrowth(b) then g + 1 else g;
    NextSlotIsVacant(b);
    hide Inv, SplitLists;
    assert Pow2(g + 1) == 2 * Pow2(g);
  }

  lemma {:induction false} SplitDownDoubles(b: Buddy, i: nat, level: nat, growOk: bool, g: nat) returns (h: nat)
    requires Inv(b) && IsFree(b.slots, i) && Doubled(b, g)
    ensures g <= h && Doubled(SplitDown(b, i, level, growOk), h)
    decreases b.slots[i].level
  {
    h := g;
    if b.slots[i].level > level && (NeedsGrowth(b) ==> growOk) {
      SplitStep(b, i);
      hide Inv, SameUsed, CoalescedExcept, Split, Doubled;
      h := SplitDoubles(b, i, g);
      h := SplitDownDoubles(Split(b, i), i, level, growOk, h);
    }
  }

  lemma AllocDoubles(b: Buddy, size: nat, alignment: nat, growOk: bool, g: nat) returns (h: nat)
    requires Inv(b) && Doubled(b, g)
    ensures g <= h && Doubled(Alloc(b, size, alignment, growOk).0, h)
  {
    h := g;
    var k := RequestLevel(size, alignment);
    var l := FirstNonempty(b.lists, k);
    if size <= MAX_BLOCK_SIZE && alignment <= MAX_BLOCK_SIZE && l < NUM_BUDDY_LEVELS {
      hide Inv, SplitDown, RequestLevel, Doubled, Take, SameUsed, CoalescedExcept;
      HeadIsFree(b, l);
      var i := b.lists[l][0];
      h := SplitDownDoubles(b, i, k, growOk, g);
      SplitDownKeepsInv(b, i, k, growOk);
      TakeDoubles(SplitDown(b, i, k, growOk), i, h);
    }
  }

  lemma TakeDoubles(b: Buddy, i: nat, g: nat)
    requires Inv(b) && IsFree(b.slots, i) && Doubled(b, g)
    ensures Doubled(Take(b, i), g)
  {
    hide Inv;
  }

  lemma {:induction false} CoalesceKeepsSlotCount(b: Buddy, i: nat)
    requires Inv(b) && IsFree(b.slots, i)
    ensures Coalesce(b, i).capacity == b.capacity && |Coalesce(b, i).slots| == |b.slots|
    decreases NUM_BUDDY_LEVELS - b.slots[i].level
  {
    if b.slots[i].level < NUM_BUDDY_LEVELS - 1 && BuddyOf(b, i) < |b.slots| {
      hide SameUsed, CoalescedExcept, Inv;
      MergeStep(b, i, BuddyOf(b, i));
      CoalesceKeepsSlotCount(Merge(b, i, BuddyOf(b, i)), Lower(b.slots, i, BuddyOf(b, i)));
    }
  }

  lemma FreeDoubles(b: Buddy, i: nat, g: nat)
    requires Inv(b) && Live(b.slots, i) && Doubled(b, g)
    ensures Doubled(FreeSlot(b, i), g)
  {
    hide Inv, Coalesce;
    if !IsFree(b.slots, i) {
      ReleaseKeepsInv(b, i);
      CoalesceKeepsSlotCount(Release(b, i), i);
    }
  }
}
