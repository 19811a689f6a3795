/**
 * The allocation handles of one memory type, over whole runs of allocations and frees.
 */
module GpuPoolModel {
  import opened Basics
  import opened Bits
  import opened BuddyLayout
  import opened BuddyModel

  /** A live handle, together with the request it answers. */
  datatype Grant = Grant(index: nat, offset: nat, size: nat, wanted: nat, alignment: nat)

  datatype Pool = Pool(buddy: Buddy, live: seq<Grant>, usedBudget: int, failures: nat)

  /** Handles are freed in any order: OpFree names a position in the list of live handles.
      `growOk` and `handleOk` say whether the C library grants the memory that an allocation
      asks for (a longer slot array, the handle itself). */
  datatype Op =
    | OpAlloc(size: nat, alignment: nat, growOk: bool, handleOk: bool)
    | OpFree(k: nat)

  function Start(total: nat): (p: Pool)
    ensures PoolInv(p) && Coalesced(p.buddy.slots)
  {
    InitInv(total);
    Pool(Init(total), [], 0, 0)
  }

  function PoolAlloc(p: Pool, size: nat, alignment: nat, growOk: bool, handleOk: bool): Pool
    requires PoolInv(p)
  {
    AllocKeepsInv(p.buddy, size, alignment, growOk);
    var (b, res) := Alloc(p.buddy, size, alignment, growOk);
    match res
    case None => p.(buddy := b, failures := p.failures + 1)
    case Some(i) =>
      if handleOk then
        p.(buddy := b,
           live := p.live + [Grant(i, b.slots[i].offset, b.slots[i].size, size, alignment)],
           usedBudget := p.usedBudget + b.slots[i].size)
      else p.(buddy := FreeSlot(b, i))
  }

  function Removed(live: seq<Grant>, k: nat): (r: seq<Grant>)
    requires k < |live|
    ensures |r| == |live| - 1
    ensures forall j :: 0 <= j < |r| ==> r[j] == live[if j < k then j else j + 1]
  {
    live[..k] + live[k + 1..]
  }

  function PoolFree(p: Pool, k: nat): Pool
    requires PoolInv(p) && k < |p.live|
  {
    p.(buddy := FreeSlot(p.buddy, p.live[k].index),
       live := Removed(p.live, k),
       usedBudget := p.usedBudget - p.live[k].size)
  }

  function Step(p: Pool, op: Op): Pool
    requires PoolInv(p)
  {
    match op
    case OpAlloc(size, alignment, growOk, handleOk) => PoolAlloc(p, size, alignment, growOk, handleOk)
    case OpFree(k) => if k < |p.live| then PoolFree(p, k) else p
  }

  function Exec(p: Pool, ops: seq<Op>): (r: Pool)
    requires PoolInv(p)
    ensures PoolInv(r) && r.buddy.total == p.buddy.total
    decreases |ops|
  {
    if ops == [] then p
    else
      StepKeepsInv(p, ops[0]);
      Exec(Step(p, ops[0]), ops[1..])
  }

  function GrantSize(g: Grant): nat { g.size }

  /** Sum of the sizes of all live handles. */
  function LiveSizes(live: seq<Grant>): nat {
    Sum(live, GrantSize)
  }

  function GrantLevel(g: Grant): (l: nat) {
    RequestLevel(g.wanted, g.alignment)
  }

  /** The handle names an allocated slot with the handle's offset and size, of exactly the
      level its request needs. */
  ghost predicate GrantOk(slots: seq<Slot>, g: Grant) {
    && IsUsed(slots, g.index)
    && slots[g.index].offset == g.offset
    && slots[g.index].size == g.size
    && slots[g.index].level == GrantLevel(g)
    && g.wanted <= MAX_BLOCK_SIZE && g.alignment <= MAX_BLOCK_SIZE
  }

  ghost predicate GrantedAt(live: seq<Grant>, k: int, i: nat) {
    0 <= k < |live| && live[k].index == i
  }

  ghost predicate GrantsMatch(slots: seq<Slot>, live: seq<Grant>) {
    forall k :: 0 <= k < |live| ==> GrantOk(slots, live[k])
  }

  ghost predicate GrantsDistinct(live: seq<Grant>) {
    forall j, k :: 0 <= j < k < |live| ==> live[j].index != live[k].index
  }

  ghost predicate HasGrant(live: seq<Grant>, i: nat) {
    exists k :: GrantedAt(live, k, i)
  }

  ghost predicate GrantsComplete(slots: seq<Slot>, live: seq<Grant>) {
    forall i: nat :: IsUsed(slots, i) ==> HasGrant(live, i)
  }

  /** Handles and allocated slots correspond one to one. */
  ghost predicate GrantsOk(slots: seq<Slot>, live: seq<Grant>) {
    GrantsMatch(slots, live) && GrantsDistinct(live) && GrantsComplete(slots, live)
  }

  ghost predicate PoolInv(p: Pool) {
    && Inv(p.buddy)
    && GrantsOk(p.buddy.slots, p.live)
    && p.usedBudget == p.buddy.allocatedBytes == LiveSizes(p.live)
  }

  lemma {:induction false} RemovedSizesTo(live: seq<Grant>, k: nat, n: nat)
    requires k < |live| && n <= |Removed(live, k)|
    ensures SumTo(Removed(live, k), n, GrantSize) ==
            if n <= k then SumTo(live, n, GrantSize) else SumTo(live, n + 1, GrantSize) - live[k].size
  {
    if n != 0 {
      RemovedSizesTo(live, k, n - 1);
    }
  }

  lemma RemovedSizes(live: seq<Grant>, k: nat)
    requires k < |live|
    ensures LiveSizes(Removed(live, k)) == LiveSizes(live) - live[k].size
  {
    RemovedSizesTo(live, k, |live| - 1);
  }

  lemma GrantAdded(s: seq<Slot>, r: seq<Slot>, live: seq<Grant>, g: Grant)
    requires GrantsOk(s, live) && !IsUsed(s, g.index) && SameUsedExcept(s, r, g.index) && GrantOk(r, g)
    ensures GrantsOk(r, live + [g])
  {
    var all := live + [g];
    forall i: nat | IsUsed(r, i)
      ensures HasGrant(all, i)
    {
      if i == g.index {
        assert GrantedAt(all, |live|, i);
      } else {
        assert HasGrant(live, i);
        var k :| GrantedAt(live, k, i);
        assert GrantedAt(all, k, i);
      }
    }
    forall k | 0 <= k < |live|
      ensures GrantOk(r, live[k]) && live[k].index != g.index
    {
      assert GrantOk(s, live[k]);
    }
  }

  lemma GrantRemoved(s: seq<Slot>, r: seq<Slot>, live: seq<Grant>, k: nat)
    requires GrantsOk(s, live) && k < |live|
    requires !IsUsed(r, live[k].index) && SameUsedExcept(s, r, live[k].index)
    ensures GrantsOk(r, Removed(live, k))
  {
    RemovedMatch(s, r, live, k);
    RemovedDistinct(live, k);
    RemovedComplete(s, r, live, k);
  }

  lemma RemovedMatch(s: seq<Slot>, r: seq<Slot>, live: seq<Grant>, k: nat)
    requires GrantsMatch(s, live) && GrantsDistinct(live) && k < |live|
    requires SameUsedExcept(s, r, live[k].index)
    ensures GrantsMatch(r, Removed(live, k))
  {
    var rest := Removed(live, k);
    forall j | 0 <= j < |rest|
      ensures GrantOk(r, rest[j])
    {
      var j0 := if j < k then j else j + 1;
      assert GrantOk(s, live[j0]);
      assert live[j0].index != live[k].index;
    }
  }

  lemma RemovedDistinct(live: seq<Grant>, k: nat)
    requires GrantsDistinct(live) && k < |live|
    ensures GrantsDistinct(Removed(live, k))
  {
    var rest := Removed(live, k);
    forall i, j | 0 <= i < j < |rest|
      ensures rest[i].index != rest[j].index
    {
      var i0, j0 := if i < k then i else i + 1, if j < k then j else j + 1;
      assert live[i0].index != live[j0].index;
    }
  }

  lemma RemovedComplete(s: seq<Slot>, r: seq<Slot>, live: seq<Grant>, k: nat)
    requires GrantsComplete(s, live) && k < |live|
    requires !IsUsed(r, live[k].index) && SameUsedExcept(s, r, live[k].index)
    ensures GrantsComplete(r, Removed(live, k))
  {
    var rest := Removed(live, k);
    forall i: nat | IsUsed(r, i)
      ensures HasGrant(rest, i)
    {
      assert HasGrant(live, i);
      var j :| GrantedAt(live, j, i);
      var j' := if j < k then j else j - 1;
      assert rest[j'] == live[j];
      assert GrantedAt(rest, j', i);
    }
  }

  lemma GrantsKept(s: seq<Slot>, r: seq<Slot>, live: seq<Grant>)
    requires GrantsOk(s, live) && SameUsed(s, r)
    ensures GrantsOk(r, live)
  {
  }

  lemma UndoneGrant(s: seq<Slot>, t: seq<Slot>, r: seq<Slot>, i: nat)
    requires !IsUsed(s, i) && SameUsedExcept(s, t, i) && SameUsedExcept(t, r, i) && !IsUsed(r, i)
    ensures SameUsed(s, r)
  {
  }

  lemma AllocKeepsPool(p: Pool, size: nat, alignment: nat, growOk: bool, handleOk: bool)
    requires PoolInv(p)
    ensures PoolInv(PoolAlloc(p, size, alignment, growOk, handleOk))
  {
    hide Inv, GrantsOk, SameUsedExcept, SameUsed, CoalescedExcept;
    AllocKeepsInv(p.buddy, size, alignment, growOk);
    var (b, res) := Alloc(p.buddy, size, alignment, growOk);
    if res.None? {
      GrantsKept(p.buddy.slots, b.slots, p.live);
    } else {
      var i := res.value;
      if handleOk {
        var g := Grant(i, b.slots[i].offset, b.slots[i].size, size, alignment);
        GrantAdded(p.buddy.slots, b.slots, p.live, g);
        SumAppend(p.live, g, GrantSize);
      } else {
        FreeKeepsInv(b, i);
        UndoneGrant(p.buddy.slots, b.slots, FreeSlot(b, i).slots, i);
        GrantsKept(p.buddy.slots, FreeSlot(b, i).slots, p.live);
      }
    }
  }

  lemma FreeKeepsPool(p: Pool, k: nat)
    requires PoolInv(p) && k < |p.live|
    ensures PoolInv(PoolFree(p, k))
  {
    var g := p.live[k];
    assert GrantOk(p.buddy.slots, g);
    hide Inv, GrantsOk, SameUsedExcept, Removed;
    FreeKeepsInv(p.buddy, g.index);
    GrantRemoved(p.buddy.slots, FreeSlot(p.buddy, g.index).slots, p.live, k);
    RemovedSizes(p.live, k);
  }

  lemma StepKeepsInv(p: Pool, op: Op)
    requires PoolInv(p)
    ensures PoolInv(Step(p, op)) && Step(p, op).buddy.total == p.buddy.total
  {
    match op
    case OpAlloc(size, alignment, growOk, handleOk) =>
      AllocKeepsPool(p, size, alignment, growOk, handleOk);
      AllocKeepsInv(p.buddy, size, alignment, growOk);
      var (b, res) := Alloc(p.buddy, size, alignment, growOk);
      if res.Some? {
        FreeKeepsInv(b, res.value);
      }
    case OpFree(k) =>
      if k < |p.live| {
        FreeKeepsPool(p, k);
        assert GrantOk(p.buddy.slots, p.live[k]);
        hide Inv, CoalescedExcept, SameUsedExcept;
        FreeKeepsInv(p.buddy, p.live[k].index);
      }
  }

  // ----- theorems over runs

  predicate GrowthNeverFails(ops: seq<Op>) {
    forall op :: op in ops && op.OpAlloc? ==> op.growOk
  }

  /** Between operations no two free blocks are buddies, over every run whose slot-array
      growths succeed. */
  lemma {:induction false} RunCoalesced(p: Pool, ops: seq<Op>)
    requires PoolInv(p) && Coalesced(p.buddy.slots) && GrowthNeverFails(ops)
    ensures Coalesced(Exec(p, ops).buddy.slots)
    decreases |ops|
  {
    if ops != [] {
      StepKeepsInv(p, ops[0]);
      StepCoalesced(p, ops[0]);
      RunCoalesced(Step(p, ops[0]), ops[1..]);
    }
  }

  lemma StepCoalesced(p: Pool, op: Op)
    requires PoolInv(p) && Coalesced(p.buddy.slots) && (op.OpAlloc? ==> op.growOk)
    ensures Coalesced(Step(p, op).buddy.slots)
  {
    match op
    case OpAlloc(size, alignment, growOk, handleOk) =>
      AllocCoalescedIff(p.buddy, size, alignment, growOk);
      AllocKeepsInv(p.buddy, size, alignment, growOk);
      var (b, res) := Alloc(p.buddy, size, alignment, growOk);
      if res.Some? {
        FreeKeepsInv(b, res.value);
      }
    case OpFree(k) =>
      if k < |p.live| {
        assert GrantOk(p.buddy.slots, p.live[k]);
        FreeKeepsInv(p.buddy, p.live[k].index);
      }
  }

  function GrantEnd(g: Grant): nat {
    g.offset + LevelSize(GrantLevel(g))
  }

  ghost predicate NoGrantIn(live: seq<Grant>, r: nat, k: nat) {
    forall j :: 0 <= j < |live| ==> GrantEnd(live[j]) <= r || r + LevelSize(k) <= live[j].offset
  }

  /** A request gets a handle when the C library grants the memory for it. */
  predicate IsGranted(p: Pool, size: nat, alignment: nat)
    requires PoolInv(p)
  {
    |PoolAlloc(p, size, alignment, true, true).live| == |p.live| + 1
  }

  /** Some naturally aligned range of the size of level k below `end` meets no live handle. */
  ghost predicate RoomBelow(live: seq<Grant>, k: nat, end: nat) {
    exists r: nat :: r % LevelSize(k) == 0 && r + LevelSize(k) <= end && NoGrantIn(live, r, k)
  }

  /** The request is granted if and only if it respects the size limits and a range of its
      block size is available below `end`. */
  ghost predicate ExactBelow(p: Pool, size: nat, alignment: nat, end: nat)
    requires PoolInv(p)
  {
    IsGranted(p, size, alignment)
    <==> && size <= MAX_BLOCK_SIZE && alignment <= MAX_BLOCK_SIZE
         && RoomBelow(p.live, RequestLevel(size, alignment), end)
  }

  /** Exact success: after any run whose growths succeed, a request is granted if and only if
      it respects the size limits and some naturally aligned range of its block size, within
      the block that the pool started with, meets no live handle. */
  lemma AllocationIsExact(total: nat, ops: seq<Op>, size: nat, alignment: nat)
    requires GrowthNeverFails(ops)
    ensures ExactBelow(Exec(Start(total), ops), size, alignment, LevelSize(LevelFor(total)))
  {
    RunCoalesced(Start(total), ops);
    CoalescedIsExact(Exec(Start(total), ops), size, alignment);
  }

  lemma CoalescedIsExact(p: Pool, size: nat, alignment: nat)
    requires PoolInv(p) && Coalesced(p.buddy.slots)
    ensures ExactBelow(p, size, alignment, LevelSize(LevelFor(p.buddy.total)))
  {
    hide Inv, GrantsOk, Coalesced, HasRoom, RoomBelow;
    AllocSucceedsIffRoom(p.buddy, size, alignment);
    RoomOfGrants(p, RequestLevel(size, alignment));
  }

  lemma RoomOfGrants(p: Pool, k: nat)
    requires PoolInv(p)
    ensures HasRoom(p.buddy, k) <==> RoomBelow(p.live, k, LevelSize(LevelFor(p.buddy.total)))
  {
    var slots := p.buddy.slots;
    hide Inv, GrantsOk, NothingUsedIn, NoGrantIn, LevelSize, LevelFor;
    forall r: nat
      ensures NothingUsedIn(slots, r, k) <==> NoGrantIn(p.live, r, k)
      ensures Multiple(LevelSize(k), r) <==> r % LevelSize(k) == 0
    {
      MultipleMeansDivisible(LevelSize(k), r);
      UsedAreGrants(slots, p.live, r, k);
    }
  }

  lemma UsedAreGrants(slots: seq<Slot>, live: seq<Grant>, r: nat, k: nat)
    requires GrantsOk(slots, live)
    ensures NothingUsedIn(slots, r, k) <==> NoGrantIn(live, r, k)
  {
    if NothingUsedIn(slots, r, k) {
      forall j | 0 <= j < |live|
        ensures GrantEnd(live[j]) <= r || r + LevelSize(k) <= live[j].offset
      {
        assert GrantOk(slots, live[j]);
      }
    }
    if NoGrantIn(live, r, k) {
      forall i | IsUsed(slots, i)
        ensures slots[i].End() <= r || r + LevelSize(k) <= slots[i].offset
      {
        assert HasGrant(live, i);
        var j :| GrantedAt(live, j, i);
        assert GrantOk(slots, live[j]);
      }
    }
  }

  /** Slot i is one free block spanning the pool, and every other slot is dead. */
  ghost predicate WholeIn(b: Buddy, i: nat) {
    && IsFree(b.slots, i) && b.slots[i].offset == 0 && b.slots[i].level == LevelFor(b.total)
    && |b.lists| == NUM_BUDDY_LEVELS && b.lists[LevelFor(b.total)] == [i]
    && (forall j :: 0 <= j < |b.slots| && j != i ==> b.slots[j].status == Dead)
  }

  /** Full restoration: when every handle has been freed, one free block spanning the pool
      is left and every other slot is on the dead-slot stack. */
  lemma AllFreedRestores(total: nat, ops: seq<Op>) returns (i: nat)
    requires GrowthNeverFails(ops) && Exec(Start(total), ops).live == []
    ensures var b := Exec(Start(total), ops).buddy;
            WholeIn(b, i) && b.total == total && b.allocatedBytes == 0
  {
    RunCoalesced(Start(total), ops);
    i := EmptyRestores(Exec(Start(total), ops));
  }

  lemma EmptyRestores(p: Pool) returns (i: nat)
    requires PoolInv(p) && Coalesced(p.buddy.slots) && p.live == []
    ensures WholeIn(p.buddy, i)
  {
    NothingGranted(p.buddy.slots);
    i := EmptyPoolIsOneTile(p.buddy.slots, LevelFor(p.buddy.total));
    OnlyFree(p.buddy.slots, p.buddy.lists[LevelFor(p.buddy.total)], i);
    forall j | 0 <= j < |p.buddy.slots| && j != i
      ensures p.buddy.slots[j].status == Dead
    {
      assert !Live(p.buddy.slots, j);
    }
  }

  lemma NothingGranted(slots: seq<Slot>)
    requires GrantsOk(slots, [])
    ensures forall i :: !IsUsed(slots, i)
  {
    forall i: nat
      ensures IsUsed(slots, i) ==> HasGrant([], i)
    {
    }
  }

  lemma OnlyFree(slots: seq<Slot>, xs: seq<nat>, i: nat)
    requires IsFree(slots, i) && HoldsFree(slots, xs, slots[i].level)
    requires forall j :: Live(slots, j) ==> j == i
    ensures xs == [i]
  {
    assert i in xs;
    forall x: nat | x in xs
      ensures x == i
    {
      assert Live(slots, x);
    }
    OneOrTwoMembers(xs);
    assert xs[0] in xs;
  }

  lemma OneOrTwoMembers(xs: seq<nat>)
    requires NoDup(xs)
    ensures |xs| <= 1 || exists p: nat, q: nat :: p in xs && q in xs && p != q
  {
    if |xs| > 1 {
      assert xs[0] in xs && xs[1] in xs && xs[0] != xs[1];
    }
  }

  /** Handle stability: a live handle names an allocated slot with the handle's own offset and
      size, however many other allocations, frees, splits, merges and growths went by. */
  lemma HandleStable(total: nat, ops: seq<Op>, k: nat)
    requires k < |Exec(Start(total), ops).live|
    ensures var p := Exec(Start(total), ops);
            var g := p.live[k];
            && IsUsed(p.buddy.slots, g.index)
            && p.buddy.slots[g.index] == Slot(g.offset, g.size, GrantLevel(g), Used)
  {
    HandleNamesSlot(Exec(Start(total), ops), k);
  }

  lemma HandleNamesSlot(p: Pool, k: nat)
    requires PoolInv(p) && k < |p.live|
    ensures var g := p.live[k];
            && IsUsed(p.buddy.slots, g.index) && Live(p.buddy.slots, g.index)
            && p.buddy.slots[g.index] == Slot(g.offset, g.size, GrantLevel(g), Used)
  {
    assert GrantOk(p.buddy.slots, p.live[k]);
  }

  /** Live handles never overlap. */
  lemma HandlesDisjoint(p: Pool, j: nat, k: nat)
    requires PoolInv(p) && j < k < |p.live|
    ensures GrantEnd(p.live[j]) <= p.live[k].offset || GrantEnd(p.live[k]) <= p.live[j].offset
  {
    assert GrantOk(p.buddy.slots, p.live[j]) && GrantOk(p.buddy.slots, p.live[k]);
    assert TwoLive(p.buddy.slots, p.live[j].index, p.live[k].index);
  }

  predicate PowerOfTwo(n: nat) {
    exists e: nat :: e <= n && n == Pow2(e)
  }

  /** A handle's block is the least block size that reaches both the request and the
      alignment, and its offset is a multiple of every power-of-two alignment asked for. */
  lemma HandleMeetsRequest(p: Pool, k: nat)
    requires PoolInv(p) && k < |p.live|
    ensures var g := p.live[k];
            && (forall l: nat :: GrantLevel(g) <= l <==> g.wanted <= LevelSize(l) && g.alignment <= LevelSize(l))
            && g.offset % LevelSize(GrantLevel(g)) == 0
            && (PowerOfTwo(g.alignment) ==> g.offset % g.alignment == 0)
  {
    var g := p.live[k];
    assert GrantOk(p.buddy.slots, g);
    forall l: nat
      ensures GrantLevel(g) <= l <==> g.wanted <= LevelSize(l) && g.alignment <= LevelSize(l)
    {
      LevelForIsLeast(if g.wanted < g.alignment then g.alignment else g.wanted, l);
    }
    assert Multiple(LevelSize(GrantLevel(g)), g.offset);
    MultipleMeansDivisible(LevelSize(GrantLevel(g)), g.offset);
    if PowerOfTwo(g.alignment) {
      AlignedAsAsked(g.offset, g.alignment, GrantLevel(g));
    }
  }

  lemma AlignedAsAsked(offset: nat, alignment: nat, level: nat)
    requires PowerOfTwo(alignment) && alignment <= LevelSize(level) && Multiple(LevelSize(level), offset)
    ensures offset % alignment == 0
  {
    var e: nat :| e <= alignment && alignment == Pow2(e);
    LevelSizeIsPow2(level);
    if e > level + 8 {
      Pow2Divides(level + 9, e);
    } else {
      Pow2Divides(e, level + 8);
      MultipleOfMultiple(alignment, LevelSize(level), offset);
    }
    MultipleMeansDivisible(alignment, offset);
  }

  // ----- conservation

  /** The recorded sizes along one free list. */
  function ListBytes(slots: seq<Slot>, xs: seq<nat>): nat {
    if xs == [] then 0
    else (if xs[0] < |slots| then slots[xs[0]].size else 0) + ListBytes(slots, xs[1..])
  }

  /** The recorded sizes along the free lists of the first n levels. */
  function FreeListBytes(slots: seq<Slot>, lists: seq<seq<nat>>, n: nat): nat
    requires n <= |lists|
  {
    if n == 0 then 0 else FreeListBytes(slots, lists, n - 1) + ListBytes(slots, lists[n - 1])
  }

  function FreeAtLevel(l: nat): Slot -> nat {
    (x: Slot) => if x.status == Free && x.level == l then x.size else 0
  }

  function FreeUnder(l: nat): Slot -> nat {
    (x: Slot) => if x.status == Free && x.level < l then x.size else 0
  }

  lemma {:induction false} ListBytesWithout(slots: seq<Slot>, xs: seq<nat>, i: nat)
    requires i in xs && i < |slots|
    ensures ListBytes(slots, Without(xs, i)) == ListBytes(slots, xs) - slots[i].size
  {
    if xs[0] != i {
      ListBytesWithout(slots, xs[1..], i);
      assert ([xs[0]] + Without(xs[1..], i))[1..] == Without(xs[1..], i);
    }
  }

  /** A list of exactly the free slots of a level sums up their sizes. */
  lemma {:induction false} ListBytesOfLevel(slots: seq<Slot>, n: nat, xs: seq<nat>, l: nat)
    requires n <= |slots| && NoDup(xs)
    requires forall i: nat :: i in xs <==> i < n && slots[i].status == Free && slots[i].level == l
    ensures ListBytes(slots, xs) == SumTo(slots, n, FreeAtLevel(l))
    decreases n
  {
    if n == 0 {
      NonemptyHasMember(xs);
    } else if slots[n - 1].status == Free && slots[n - 1].level == l {
      WithoutRemoves(xs, n - 1);
      ListBytesWithout(slots, xs, n - 1);
      ListBytesOfLevel(slots, n - 1, Without(xs, n - 1), l);
    } else {
      ListBytesOfLevel(slots, n - 1, xs, l);
    }
  }

  lemma {:induction false} FreeListsSum(slots: seq<Slot>, lists: seq<seq<nat>>, n: nat)
    requires ListsOk(slots, lists) && n <= |lists|
    ensures FreeListBytes(slots, lists, n) == Sum(slots, FreeUnder(n))
  {
    if n == 0 {
      ZeroSum(slots, |slots|, FreeUnder(0));
    } else {
      FreeListsSum(slots, lists, n - 1);
      assert HoldsFree(slots, lists[n - 1], n - 1);
      ListBytesOfLevel(slots, |slots|, lists[n - 1], n - 1);
      SumToAdds(slots, |slots|, FreeUnder(n - 1), FreeAtLevel(n - 1), FreeUnder(n));
    }
  }

  lemma {:induction false} ZeroSum(slots: seq<Slot>, n: nat, weight: Slot -> nat)
    requires n <= |slots| && forall i :: 0 <= i < |slots| ==> weight(slots[i]) == 0
    ensures SumTo(slots, n, weight) == 0
  {
    if n != 0 {
      ZeroSum(slots, n - 1, weight);
    }
  }

  ghost predicate ExactSizes(slots: seq<Slot>) {
    forall i :: Live(slots, i) ==> slots[i].level < NUM_BUDDY_LEVELS && slots[i].size == LevelSize(slots[i].level)
  }

  lemma FreePlusUsed(slots: seq<Slot>)
    requires ExactSizes(slots)
    ensures Sum(slots, FreeUnder(NUM_BUDDY_LEVELS)) + Sum(slots, UsedBytes) == Sum(slots, LiveBytes)
  {
    forall i | 0 <= i < |slots|
      ensures FreeUnder(NUM_BUDDY_LEVELS)(slots[i]) + UsedBytes(slots[i]) == LiveBytes(slots[i])
    {
      assert slots[i].status == Dead || Live(slots, i);
    }
    SumToAdds(slots, |slots|, FreeUnder(NUM_BUDDY_LEVELS), UsedBytes, LiveBytes);
  }

  /** For a pool whose size is a block size, the bytes along the free lists and the allocated
      bytes add up to the pool, and every handle records exactly its block size. */
  lemma BytesConserved(p: Pool)
    requires PoolInv(p) && LevelSize(LevelFor(p.buddy.total)) == p.buddy.total
    ensures |p.buddy.lists| == NUM_BUDDY_LEVELS
    ensures FreeListBytes(p.buddy.slots, p.buddy.lists, NUM_BUDDY_LEVELS) + p.buddy.allocatedBytes == p.buddy.total
    ensures p.usedBudget == LiveSizes(p.live)
    ensures forall k :: 0 <= k < |p.live| ==> p.live[k].size == LevelSize(GrantLevel(p.live[k]))
  {
    var slots := p.buddy.slots;
    assert ExactSizes(slots);
    hide LevelFor, LevelSize, LiveSizes, Sum;
    forall k | 0 <= k < |p.live|
      ensures p.live[k].size == LevelSize(GrantLevel(p.live[k]))
    {
      HandleNamesSlot(p, k);
    }
    FreeListsSum(slots, p.buddy.lists, NUM_BUDDY_LEVELS);
    FreePlusUsed(slots);
  }

  function LiveCount(x: Slot): nat { if x.status == Dead then 0 else 1 }
  function DeadCount(x: Slot): nat { if x.status == Dead then 1 else 0 }
  function One(x: Slot): nat { 1 }

  /** Slots in use plus dead slots are all slots, and there are never more slots than
      smallest blocks in the pool. */
  lemma SlotsConserved(p: Pool)
    requires PoolInv(p)
    ensures |p.buddy.slots| == Sum(p.buddy.slots, LiveCount) + |p.buddy.dead|
    ensures MIN_BLOCK_SIZE * |p.buddy.slots| <= LevelSize(LevelFor(p.buddy.total))
  {
    LiveAndDead(p.buddy.slots, p.buddy.dead);
  }

  lemma LiveAndDead(slots: seq<Slot>, dead: seq<nat>)
    requires DeadOk(slots, dead)
    ensures |slots| == Sum(slots, LiveCount) + |dead|
  {
    SumToAdds(slots, |slots|, LiveCount, DeadCount, One);
    SumOfOnes(slots, |slots|);
    DeadStackCount(slots, |slots|, dead);
  }

  lemma {:induction false} SumOfOnes(slots: seq<Slot>, n: nat)
    requires n <= |slots|
    ensures SumTo(slots, n, One) == n
  {
    if n != 0 {
      SumOfOnes(slots, n - 1);
    }
  }

  lemma NonemptyHasMember(xs: seq<nat>)
    ensures xs == [] || exists x: nat :: x in xs
  {
    if xs != [] {
      assert xs[0] in xs;
    }
  }

  /** The dead-slot stack is as long as there are dead slots. */
  lemma {:induction false} DeadStackCount(slots: seq<Slot>, n: nat, dead: seq<nat>)
    requires n <= |slots| && NoDup(dead)
    requires forall i: nat :: i in dead <==> i < n && slots[i].status == Dead
    ensures SumTo(slots, n, DeadCount) == |dead|
    decreases n
  {
    if n == 0 {
      NonemptyHasMember(dead);
    } else if slots[n - 1].status == Dead {
      var rest := Without(dead, n - 1);
      WithoutRemoves(dead, n - 1);
      WithoutLength(dead, n - 1);
      DeadStackCount(slots, n - 1, rest);
    } else {
      DeadStackCount(slots, n - 1, dead);
    }
  }

  lemma {:induction false} WithoutLength(xs: seq<nat>, i: nat)
    requires i in xs
    ensures |Without(xs, i)| == |xs| - 1
  {
    if xs[0] != i {
      WithoutLength(xs[1..], i);
    }
  }

  // ----- peak and capacity over runs

  /** What is allocated after each request of a run, granted or not, before a grant that finds
      no memory for its handle is undone. */
  function Usages(p: Pool, ops: seq<Op>): seq<int>
    requires PoolInv(p)
    decreases |ops|
  {
    if ops == [] then []
    else
      StepKeepsInv(p, ops[0]);
      (match ops[0]
       case OpAlloc(size, alignment, growOk, _) => [Alloc(p.buddy, size, alignment, growOk).0.allocatedBytes]
       case OpFree(_) => []) + Usages(Step(p, ops[0]), ops[1..])
  }

  function Highest(xs: seq<int>, least: int): (m: int)
    ensures m >= least && forall k :: 0 <= k < |xs| ==> xs[k] <= m
    ensures m == least || m in xs
  {
    if xs == [] then least else Highest(xs[1..], Larger(least, xs[0]))
  }

  lemma StepPeak(p: Pool, op: Op)
    requires PoolInv(p)
    ensures Step(p, op).buddy.peakBytes
         == if op.OpAlloc? then Larger(p.buddy.peakBytes, Alloc(p.buddy, op.size, op.alignment, op.growOk).0.allocatedBytes)
            else p.buddy.peakBytes
  {
    match op
    case OpAlloc(size, alignment, growOk, handleOk) =>
      hide Inv, GrantsOk, Alloc;
      AllocPeak(p.buddy, size, alignment, growOk);
      AllocKeepsInv(p.buddy, size, alignment, growOk);
      var (b, res) := Alloc(p.buddy, size, alignment, growOk);
      if res.Some? {
        FreePeak(b, res.value);
      }
    case OpFree(k) =>
      if k < |p.live| {
        HandleNamesSlot(p, k);
        FreePeak(p.buddy, p.live[k].index);
      }
  }

  lemma {:induction false} PeakIsHighest(p: Pool, ops: seq<Op>)
    requires PoolInv(p)
    ensures Exec(p, ops).buddy.peakBytes == Highest(Usages(p, ops), p.buddy.peakBytes)
    decreases |ops|
  {
    hide PoolInv, Step, Alloc;
    if ops != [] {
      StepPeak(p, ops[0]);
      StepKeepsInv(p, ops[0]);
      PeakIsHighest(Step(p, ops[0]), ops[1..]);
      UsagesCons(p, ops);
    }
  }

  lemma UsagesCons(p: Pool, ops: seq<Op>)
    requires PoolInv(p) && ops != []
    ensures PoolInv(Step(p, ops[0]))
    ensures var rest := Usages(Step(p, ops[0]), ops[1..]);
            if ops[0].OpAlloc?
            then var u := Alloc(p.buddy, ops[0].size, ops[0].alignment, ops[0].growOk).0.allocatedBytes;
                 Usages(p, ops) == [u] + rest && ([u] + rest)[0] == u && ([u] + rest)[1..] == rest
            else Usages(p, ops) == rest
  {
    hide PoolInv, Step, Alloc;
    StepKeepsInv(p, ops[0]);
  }

  /** The peak is the highest number of bytes ever allocated in the run. */
  lemma RunPeak(total: nat, ops: seq<Op>)
    ensures Exec(Start(total), ops).buddy.peakBytes == Highest(Usages(Start(total), ops), 0)
  {
    PeakIsHighest(Start(total), ops);
  }

  lemma StepDoubles(p: Pool, op: Op, g: nat) returns (h: nat)
    requires PoolInv(p) && BuddyModel.Doubled(p.buddy, g)
    ensures g <= h && BuddyModel.Doubled(Step(p, op).buddy, h)
  {
    h := g;
    match op
    case OpAlloc(size, alignment, growOk, handleOk) =>
      hide Inv, GrantsOk, Alloc, BuddyModel.Doubled;
      h := AllocDoubles(p.buddy, size, alignment, growOk, g);
      AllocKeepsInv(p.buddy, size, alignment, growOk);
      var (b, res) := Alloc(p.buddy, size, alignment, growOk);
      if res.Some? {
        FreeDoubles(b, res.value, h);
      }
    case OpFree(k) =>
      if k < |p.live| {
        HandleNamesSlot(p, k);
        hide BuddyModel.Doubled;
        FreeDoubles(p.buddy, p.live[k].index, g);
      }
  }

  lemma {:induction false} RunDoubles(p: Pool, ops: seq<Op>, g: nat) returns (h: nat)
    requires PoolInv(p) && BuddyModel.Doubled(p.buddy, g)
    ensures g <= h && BuddyModel.Doubled(Exec(p, ops).buddy, h)
    decreases |ops|
  {
    h := g;
    hide PoolInv, Step, BuddyModel.Doubled;
    if ops != [] {
      StepKeepsInv(p, ops[0]);
      h := StepDoubles(p, ops[0], g);
      h := RunDoubles(Step(p, ops[0]), ops[1..], h);
    }
  }

  /** Over every run the slot array is its first size doubled some times, and never more than
      twice what the pool's smallest blocks need, unless it is still the first one. */
  lemma CapacityBound(total: nat, ops: seq<Op>) returns (g: nat)
    ensures var b := Exec(Start(total), ops).buddy;
            && b.capacity == INITIAL_CAPACITY * Pow2(g)
            && (g > 0 ==> b.capacity <= 2 * |b.slots| && MIN_BLOCK_SIZE * b.capacity <= 2 * LevelSize(LevelFor(total)))
  {
    g := RunDoubles(Start(total), ops, 0);
    SlotsConserved(Exec(Start(total), ops));
  }

  // ----- pools whose size is not a block size

  ghost predicate GrantsInside(total: nat, live: seq<Grant>) {
    forall k :: 0 <= k < |live| ==> live[k].offset + live[k].wanted <= total
  }

  /** Every granted request lies inside the memory of the pool, over every run, exactly when
      the block that the pool starts with does: the pool is a block size, or larger than the
      largest block. */
  lemma GrantsInsideIff(total: nat)
    ensures (forall ops: seq<Op> :: GrantsInside(total, Exec(Start(total), ops).live))
       <==> LevelSize(LevelFor(total)) <= total
  {
    if LevelSize(LevelFor(total)) <= total {
      forall ops: seq<Op>
        ensures GrantsInside(total, Exec(Start(total), ops).live)
      {
        StayInside(Exec(Start(total), ops));
      }
    } else {
      var ops := [OpAlloc(LevelSize(LevelFor(total)), 0, true, true)];
      FirstGrantOutside(total);
      assert !GrantsInside(total, Exec(Start(total), ops).live);
    }
  }

  lemma StayInside(p: Pool)
    requires PoolInv(p) && LevelSize(LevelFor(p.buddy.total)) <= p.buddy.total
    ensures GrantsInside(p.buddy.total, p.live)
  {
    forall k | 0 <= k < |p.live|
      ensures p.live[k].offset + p.live[k].wanted <= p.buddy.total
    {
      var g := p.live[k];
      assert GrantOk(p.buddy.slots, g);
      HandleMeetsRequest(p, k);
      assert Live(p.buddy.slots, g.index);
    }
  }

  lemma LevelForLevelSize(l: nat)
    requires l < NUM_BUDDY_LEVELS
    ensures LevelSize(l) <= MAX_BLOCK_SIZE && LevelFor(LevelSize(l)) == l
  {
    TopLevelSize();
    LevelSizes(l, NUM_BUDDY_LEVELS - 1);
    var k := LevelFor(LevelSize(l));
    LevelForIsLeast(LevelSize(l), l);
    LevelForIsLeast(LevelSize(l), k);
    if k < l {
      SizesGrow(k, l);
    }
  }

  /** A fresh pool answers a request for its whole first block with that block. */
  lemma FirstAlloc(total: nat)
    ensures Inv(Init(total))
    ensures var s := LevelSize(LevelFor(total));
            && Alloc(Init(total), s, 0, true) == (Take(Init(total), 0), Some(0))
            && Take(Init(total), 0).slots == [Slot(0, total, LevelFor(total), Used)]
  {
    InitInv(total);
    var b, top := Init(total), LevelFor(total);
    LevelForLevelSize(top);
    assert b.lists[top] == [0];
    assert FirstNonempty(b.lists, top) == top;
    assert SplitDown(b, 0, top, true) == b;
  }

  lemma ExecOne(p: Pool, op: Op)
    requires PoolInv(p)
    ensures Exec(p, [op]) == Step(p, op)
  {
    hide PoolInv, Step;
    StepKeepsInv(p, op);
    assert [op][1..] == [];
    assert Exec(Step(p, op), []) == Step(p, op);
  }

  /** After a request for the whole first block, that block is the one live handle. */
  lemma FirstBlockTaken(total: nat)
    ensures var s := LevelSize(LevelFor(total));
            && Exec(Start(total), [OpAlloc(s, 0, true, true)]).live == [Grant(0, 0, total, s, 0)]
            && GrantLevel(Grant(0, 0, total, s, 0)) == LevelFor(total)
  {
    hide Inv, GrantsOk, Alloc, Take, Init, LevelFor, Exec, LevelSize;
    FirstAlloc(total);
    LevelForLevelSize(LevelFor(total));
    ExecOne(Start(total), OpAlloc(LevelSize(LevelFor(total)), 0, true, true));
  }

  /** A pool smaller than its first block hands out, to its very first request, more bytes
      than it has. */
  lemma FirstGrantOutside(total: nat)
    requires total < LevelSize(LevelFor(total))
    ensures var s := LevelSize(LevelFor(total));
            var live := Exec(Start(total), [OpAlloc(s, 0, true, true)]).live;
            |live| == 1 && live[0].wanted == s && !GrantsInside(total, live)
  {
    hide Exec, LevelSize, LevelFor;
    FirstBlockTaken(total);
    var live := Exec(Start(total), [OpAlloc(LevelSize(LevelFor(total)), 0, true, true)]).live;
    assert live[0].offset + live[0].wanted > total;
  }

  // ----- pools larger than their first block

  /** Nothing beyond the first block is ever handed out. */
  lemma GrantsInFirstBlock(total: nat, ops: seq<Op>, k: nat)
    requires k < |Exec(Start(total), ops).live|
    ensures GrantEnd(Exec(Start(total), ops).live[k]) <= LevelSize(LevelFor(total))
  {
    GrantInFirstBlock(Exec(Start(total), ops), k);
  }

  lemma GrantInFirstBlock(p: Pool, k: nat)
    requires PoolInv(p) && k < |p.live|
    ensures GrantEnd(p.live[k]) <= LevelSize(LevelFor(p.buddy.total))
  {
    HandleNamesSlot(p, k);
  }

  lemma NoRoomBeside(live: seq<Grant>, k: nat, end: nat)
    requires |live| > 0 && live[0].offset == 0 && GrantEnd(live[0]) == end
    ensures !RoomBelow(live, k, end)
  {
    hide LevelSize;
    forall r: nat | r + LevelSize(k) <= end
      ensures !NoGrantIn(live, r, k)
    {
      assert GrantEnd(live[0]) > r && r + LevelSize(k) > live[0].offset;
    }
  }

  /** Once the first block is taken every request is refused, although all memory behind it
      is free. */
  lemma BeyondFirstBlock(total: nat, size: nat, alignment: nat)
    ensures var s := LevelSize(LevelFor(total));
            var p := Exec(Start(total), [OpAlloc(s, 0, true, true)]);
            && !IsGranted(p, size, alignment)
            && NoGrantIn(p.live, s, RequestLevel(size, alignment))
  {
    var s := LevelSize(LevelFor(total));
    var ops := [OpAlloc(s, 0, true, true)];
    var p := Exec(Start(total), ops);
    FirstBlockTaken(total);
    hide LevelSize, LevelFor, Exec, PoolInv, PoolAlloc;
    AllocationIsExact(total, ops, size, alignment);
    NoRoomBeside(p.live, RequestLevel(size, alignment), s);
  }

  /** The device-local pool of 256 MB: with one handle of 64 MB out, a second request for
      64 MB is refused, although the range from 64 MB to 128 MB meets no handle. */
  lemma DeviceLocalPoolStops(total: nat)
    requires total == 4 * MAX_BLOCK_SIZE
    ensures var p := Exec(Start(total), [OpAlloc(MAX_BLOCK_SIZE, 0, true, true)]);
            && |p.live| == 1 && p.live[0].offset == 0
            && !IsGranted(p, MAX_BLOCK_SIZE, 0)
            && RoomBelow(p.live, RequestLevel(MAX_BLOCK_SIZE, 0), total)
  {
    TopLevelSize();
    var top := NUM_BUDDY_LEVELS - 1;
    assert LevelFor(total) == top by {
      LevelSizes(LevelFor(total), top);
    }
    LevelForLevelSize(top);
    hide LevelSize, LevelFor, Exec, PoolInv, PoolAlloc, NoGrantIn;
    FirstBlockTaken(total);
    BeyondFirstBlock(total, MAX_BLOCK_SIZE, 0);
    assert MAX_BLOCK_SIZE % LevelSize(top) == 0;
  }

  lemma RoundedEnd(a: nat, k: nat, top: nat, total: nat)
    requires a % LevelSize(k) == 0 && total < LevelSize(top) + MIN_BLOCK_SIZE
    ensures a + LevelSize(k) <= total ==> a + LevelSize(k) <= LevelSize(top)
  {
    MultipleMeansDivisible(LevelSize(k), a);
    LevelSizes(0, k);
    LevelSizes(0, top);
    MultipleOfMultiple(MIN_BLOCK_SIZE, LevelSize(k), a);
    MultipleSum(MIN_BLOCK_SIZE, a, LevelSize(k));
    if LevelSize(top) < a + LevelSize(k) {
      MultiplesApart(MIN_BLOCK_SIZE, LevelSize(top), a + LevelSize(k));
    }
  }

  lemma SameRoom(live: seq<Grant>, k: nat, top: nat, total: nat)
    requires LevelSize(top) <= total < LevelSize(top) + MIN_BLOCK_SIZE
    ensures RoomBelow(live, k, total) <==> RoomBelow(live, k, LevelSize(top))
  {
    hide NoGrantIn, LevelSize;
    forall r: nat | r % LevelSize(k) == 0
      ensures r + LevelSize(k) <= total <==> r + LevelSize(k) <= LevelSize(top)
    {
      RoundedEnd(r, k, top, total);
    }
  }

  /** Requests are granted exactly when the pool has room for them. */
  ghost predicate ExactInPool(total: nat) {
    forall ops: seq<Op>, size: nat, alignment: nat ::
      GrowthNeverFails(ops) ==> ExactBelow(Exec(Start(total), ops), size, alignment, total)
  }

  /** Allocation uses the pool's memory exactly when the first block is the pool, up to a
      rest that is too short for a block: a smaller pool grants what it does not have, a
      larger one refuses what it has. */
  lemma ExactInPoolIff(total: nat)
    ensures var s := LevelSize(LevelFor(total));
            ExactInPool(total) <==> s <= total < s + MIN_BLOCK_SIZE
  {
    var top := LevelFor(total);
    if total < LevelSize(top) {
      SmallPoolNotExact(total);
    } else if total >= LevelSize(top) + MIN_BLOCK_SIZE {
      LargePoolNotExact(total);
    } else {
      hide LevelSize, LevelFor, Exec, PoolInv, PoolAlloc, RoomBelow;
      forall ops: seq<Op>, size: nat, alignment: nat | GrowthNeverFails(ops)
        ensures ExactBelow(Exec(Start(total), ops), size, alignment, total)
      {
        AllocationIsExact(total, ops, size, alignment);
        SameRoom(Exec(Start(total), ops).live, RequestLevel(size, alignment), top, total);
      }
    }
  }

  lemma SmallPoolNotExact(total: nat)
    requires total < LevelSize(LevelFor(total))
    ensures !ExactInPool(total)
  {
    var top := LevelFor(total);
    var s, p := LevelSize(top), Start(total);
    LevelForLevelSize(top);
    assert Exec(p, []) == p;
    hide LevelSize, LevelFor, Exec, PoolInv, PoolAlloc;
    AllocationIsExact(total, [], s, 0);
    assert 0 % LevelSize(top) == 0 && NoGrantIn(p.live, 0, top);
    assert RoomBelow(p.live, top, s);
    assert !ExactBelow(Exec(p, []), s, 0, total);
  }

  lemma LargePoolNotExact(total: nat)
    requires total >= LevelSize(LevelFor(total)) + MIN_BLOCK_SIZE
    ensures !ExactInPool(total)
  {
    var top := LevelFor(total);
    var s := LevelSize(top);
    var ops := [OpAlloc(s, 0, true, true)];
    var p := Exec(Start(total), ops);
    LevelForLevelSize(0);
    LevelSizes(0, top);
    assert LevelSize(0) == MIN_BLOCK_SIZE;
    MultipleMeansDivisible(LevelSize(0), s);
    hide LevelSize, LevelFor, Exec, PoolInv, PoolAlloc, NoGrantIn;
    BeyondFirstBlock(total, MIN_BLOCK_SIZE, 0);
    assert RoomBelow(p.live, 0, total);
    assert GrowthNeverFails(ops);
    assert !ExactBelow(p, MIN_BLOCK_SIZE, 0, total);
  }
}
