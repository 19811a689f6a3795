/**
 * Geometry of a buddy pool: slots as naturally aligned tiles, what it means for the live
 * slots to tile the pool, and what maximal coalescing implies.
 */
module BuddyLayout {
  import opened Basics
  import opened Bits

  const MIN_BLOCK_SIZE := 256
  const NUM_BUDDY_LEVELS := 19
  const MAX_BLOCK_SIZE := 64 * 1024 * 1024

  function LevelSize(level: nat): (s: nat)
    ensures s > 0
  {
    MIN_BLOCK_SIZE * Pow2(level)
  }

  /** The other half of the pair a tile belongs to: flip the bit of the tile's own size. */
  function BuddyOffset(offset: nat, level: nat): nat {
    Xor(offset, LevelSize(level))
  }

  datatype Status = Free | Used | Dead

  /** `size` is the recorded size field; the extent of a tile is given by its level. */
  datatype Slot = Slot(offset: nat, size: nat, level: nat, status: Status) {
    function End(): nat {
      offset + LevelSize(level)
    }
  }

  predicate Live(slots: seq<Slot>, i: int) {
    0 <= i < |slots| && slots[i].status != Dead
  }

  predicate IsFree(slots: seq<Slot>, i: int) {
    0 <= i < |slots| && slots[i].status == Free
  }

  predicate IsUsed(slots: seq<Slot>, i: int) {
    0 <= i < |slots| && slots[i].status == Used
  }

  predicate Aligned(x: Slot) {
    Multiple(LevelSize(x.level), x.offset)
  }

  predicate Apart(x: Slot, y: Slot) {
    x.End() <= y.offset || y.End() <= x.offset
  }

  ghost predicate Covers(slots: seq<Slot>, i: int, a: nat) {
    Live(slots, i) && slots[i].offset <= a < slots[i].End()
  }

  ghost predicate Placed(slots: seq<Slot>, top: nat) {
    forall i :: Live(slots, i) ==>
      slots[i].level <= top && Aligned(slots[i]) && slots[i].End() <= LevelSize(top)
  }

  predicate TwoLive(slots: seq<Slot>, i: int, j: int) {
    Live(slots, i) && Live(slots, j) && i != j
  }

  ghost predicate Disjoint(slots: seq<Slot>) {
    forall i, j :: TwoLive(slots, i, j) ==> Apart(slots[i], slots[j])
  }

  ghost predicate CoveredAt(slots: seq<Slot>, a: nat) {
    exists i :: Covers(slots, i, a)
  }

  ghost predicate Covered(slots: seq<Slot>, top: nat) {
    forall a: nat :: a < LevelSize(top) ==> CoveredAt(slots, a)
  }

  /** The live slots are aligned tiles that cover [0, LevelSize(top)) exactly once. */
  ghost predicate Tiled(slots: seq<Slot>, top: nat) {
    Placed(slots, top) && Disjoint(slots) && Covered(slots, top)
  }

  predicate Buddies(x: Slot, y: Slot) {
    x.level == y.level && y.offset == BuddyOffset(x.offset, x.level)
  }

  predicate FreePair(slots: seq<Slot>, i: int, j: int) {
    IsFree(slots, i) && IsFree(slots, j) && Buddies(slots[i], slots[j])
  }

  /** No two free slots are buddies, except possibly pairs that involve slot `k`. */
  ghost predicate CoalescedExcept(slots: seq<Slot>, k: int) {
    forall i, j :: FreePair(slots, i, j) ==> i == k || j == k
  }

  ghost predicate Coalesced(slots: seq<Slot>) {
    CoalescedExcept(slots, -1)
  }

  // ----- aligned ranges

  lemma LevelSizes(l: nat, m: nat)
    requires l <= m
    ensures LevelSize(l) == Pow2(l + 8)
    ensures LevelSize(l) <= LevelSize(m) && Multiple(LevelSize(l), LevelSize(m))
  {
    LevelSizeIsPow2(l);
    LevelSizeIsPow2(m);
    Pow2Divides(l + 8, m + 8);
  }

  lemma {:induction false} LevelSizeIsPow2(l: nat)
    ensures LevelSize(l) == Pow2(l + 8)
  {
    if l == 0 {
      assert Pow2(8) == 256 by {
        assert Pow2(2) == 4;
        assert Pow2(4) == 16;
        assert Pow2(6) == 64;
      }
    } else {
      LevelSizeIsPow2(l - 1);
    }
  }

  /** Two aligned tiles either do not meet or the smaller lies inside the larger. */
  lemma TilesNest(x: Slot, y: Slot)
    requires Aligned(x) && Aligned(y) && x.level <= y.level
    ensures Apart(x, y) || (y.offset <= x.offset && x.End() <= y.End())
  {
    var s := LevelSize(x.level);
    LevelSizes(x.level, y.level);
    MultipleOfMultiple(s, LevelSize(y.level), y.offset);
    MultipleSum(s, y.offset, LevelSize(y.level));
    if x.offset < y.offset {
      MultiplesApart(s, x.offset, y.offset);
    } else if x.offset < y.End() {
      MultiplesApart(s, x.offset, y.End());
    }
  }

  /** The buddy is the neighbour that completes an aligned tile of the next level. */
  lemma BuddyOfAligned(offset: nat, level: nat)
    requires Multiple(LevelSize(level), offset)
    ensures var s := LevelSize(level);
            var b := BuddyOffset(offset, level);
            && LevelSize(level + 1) == 2 * s
            && Multiple(s, b)
            && BuddyOffset(b, level) == offset
            && if Multiple(2 * s, offset) then b == offset + s
               else s <= offset && b == offset - s && Multiple(2 * s, b)
  {
    var s := LevelSize(level);
    LevelSizeIsPow2(level);
    XorFlipsBit(offset, level + 8);
    MultipleAlternates(s, offset);
    var b := BuddyOffset(offset, level);
    assert Multiple(s, 0) && Multiple(s, s);
    MultipleSum(s, offset, s);
    XorFlipsBit(b, level + 8);
  }

  // ----- what coalescing to the end implies

  ghost predicate NothingUsedIn(slots: seq<Slot>, r: nat, k: nat) {
    forall i :: IsUsed(slots, i) ==> slots[i].End() <= r || r + LevelSize(k) <= slots[i].offset
  }

  /** Whatever covers the place of a tile's buddy is no larger than the tile. */
  lemma BuddyCover(slots: seq<Slot>, top: nat, i: nat, c: nat)
    requires Tiled(slots, top) && Live(slots, i)
    requires Covers(slots, c, BuddyOffset(slots[i].offset, slots[i].level))
    ensures slots[c].level <= slots[i].level
    ensures slots[c].level == slots[i].level ==> Buddies(slots[i], slots[c])
  {
    var x, y := slots[i], slots[c];
    var b := BuddyOffset(x.offset, x.level);
    BuddyOfAligned(x.offset, x.level);
    assert TwoLive(slots, i, c) || i == c;
    if y.level > x.level {
      TilesNest(Slot(if b < x.offset then b else x.offset, 0, x.level + 1, Free), y);
    } else if y.level == x.level {
      TilesNest(y, Slot(b, 0, x.level, Free));
    }
  }

  /** The buddy of a tile inside an aligned range of a higher level is inside it too. */
  lemma BuddyInRange(x: Slot, r: nat, k: nat)
    requires Aligned(x) && x.level < k && Multiple(LevelSize(k), r)
    requires x.offset < r + LevelSize(k) && r < x.End()
    ensures r <= BuddyOffset(x.offset, x.level) < r + LevelSize(k)
  {
    BuddyOfAligned(x.offset, x.level);
    var b := BuddyOffset(x.offset, x.level);
    TilesNest(Slot(if b < x.offset then b else x.offset, 0, x.level + 1, Free), Slot(r, 0, k, Free));
  }

  /** In a fully coalesced pool, every tile that meets an aligned range without live
      allocations is at least as large as the range. */
  lemma {:induction false} TileIsLarge(slots: seq<Slot>, top: nat, r: nat, k: nat, i: nat)
    requires Tiled(slots, top) && Coalesced(slots)
    requires k <= top && Multiple(LevelSize(k), r) && r + LevelSize(k) <= LevelSize(top)
    requires NothingUsedIn(slots, r, k)
    requires Live(slots, i) && slots[i].offset < r + LevelSize(k) && r < slots[i].End()
    ensures slots[i].level >= k
    decreases slots[i].level
  {
    var x := slots[i];
    if x.level < k {
      var b := BuddyOffset(x.offset, x.level);
      BuddyInRange(x, r, k);
      assert CoveredAt(slots, b);
      var c :| Covers(slots, c, b);
      BuddyCover(slots, top, i, c);
      if slots[c].level < x.level {
        TileIsLarge(slots, top, r, k, c);
      } else {
        assert FreePair(slots, i, c);
      }
    }
  }

  /** A fully coalesced pool has a free tile of at least level k exactly when some aligned
      range of that size holds no live allocation. */
  lemma FreeTileIffRoom(slots: seq<Slot>, top: nat, k: nat)
    requires Tiled(slots, top) && Coalesced(slots)
    ensures (exists i :: IsFree(slots, i) && slots[i].level >= k)
       <==> exists r: nat :: Multiple(LevelSize(k), r) && r + LevelSize(k) <= LevelSize(top)
                        && NothingUsedIn(slots, r, k)
  {
    if i :| IsFree(slots, i) && slots[i].level >= k {
      var r := slots[i].offset;
      LevelSizes(k, slots[i].level);
      MultipleOfMultiple(LevelSize(k), LevelSize(slots[i].level), r);
      assert NothingUsedIn(slots, r, k);
    }
    if r: nat :| Multiple(LevelSize(k), r) && r + LevelSize(k) <= LevelSize(top) && NothingUsedIn(slots, r, k) {
      if top < k {
        SizesGrow(top, k);
        assert false;
      }
      assert CoveredAt(slots, r);
      var i :| Covers(slots, i, r);
      TileIsLarge(slots, top, r, k, i);
      assert IsFree(slots, i);
    }
  }

  lemma {:induction false} SizesGrow(l: nat, m: nat)
    requires l < m
    ensures LevelSize(l) < LevelSize(m)
  {
    if l + 1 < m {
      SizesGrow(l, m - 1);
    }
  }

  /** Without live allocations, one free tile of the top level is all there is. */
  lemma EmptyPoolIsOneTile(slots: seq<Slot>, top: nat) returns (i: nat)
    requires Tiled(slots, top) && Coalesced(slots)
    requires forall j :: !IsUsed(slots, j)
    ensures IsFree(slots, i) && slots[i].offset == 0 && slots[i].level == top
    ensures forall j :: Live(slots, j) ==> j == i
  {
    assert NothingUsedIn(slots, 0, top);
    FreeTileIffRoom(slots, top, top);
    i :| IsFree(slots, i) && slots[i].level >= top;
    forall j | Live(slots, j)
      ensures j == i
    {
      assert !Apart(slots[i], slots[j]);
    }
  }

  // ----- splitting and merging tiles

  /** Write slot j, which is either an existing slot or the first one past the end. */
  function Put(slots: seq<Slot>, j: nat, x: Slot): (r: seq<Slot>)
    requires j <= |slots|
  {
    if j < |slots| then slots[j := x] else slots + [x]
  }

  function SplitSlots(slots: seq<Slot>, i: nat, j: nat): (r: seq<Slot>)
    requires i < |slots| && j <= |slots| && i != j && slots[i].level > 0
  {
    var l := slots[i].level - 1;
    Put(slots[i := slots[i].(level := l, size := LevelSize(l))], j,
        Slot(slots[i].offset + LevelSize(l), LevelSize(l), l, Free))
  }

  function MergeSlots(slots: seq<Slot>, lo: nat, hi: nat): (r: seq<Slot>)
    requires lo < |slots| && hi < |slots|
  {
    var l := slots[lo].level + 1;
    slots[lo := slots[lo].(level := l, size := LevelSize(l))][hi := slots[hi].(status := Dead)]
  }

  ghost predicate Vacant(slots: seq<Slot>, j: nat) {
    j == |slots| || (j < |slots| && slots[j].status == Dead)
  }

  lemma SplitKeepsTiling(slots: seq<Slot>, top: nat, i: nat, j: nat)
    requires Tiled(slots, top) && IsFree(slots, i) && slots[i].level > 0 && Vacant(slots, j)
    ensures Tiled(SplitSlots(slots, i, j), top)
  {
    SplitKeepsPlaces(slots, top, i, j);
    SplitKeepsDisjoint(slots, i, j);
    SplitKeepsCover(slots, top, i, j);
  }

  lemma SplitKeepsPlaces(slots: seq<Slot>, top: nat, i: nat, j: nat)
    requires Placed(slots, top) && IsFree(slots, i) && slots[i].level > 0 && Vacant(slots, j)
    ensures Placed(SplitSlots(slots, i, j), top)
  {
    var x := slots[i];
    var s := LevelSize(x.level - 1);
    MultipleHalvesOf(s, x.offset);
    assert Multiple(s, 0) && Multiple(s, s);
    MultipleSum(s, x.offset, s);
    var r := SplitSlots(slots, i, j);
    forall p | Live(r, p)
      ensures r[p].level <= top && Aligned(r[p]) && r[p].End() <= LevelSize(top)
    {
      assert p != j ==> Live(slots, p);
    }
  }

  lemma SplitKeepsDisjoint(slots: seq<Slot>, i: nat, j: nat)
    requires Disjoint(slots) && IsFree(slots, i) && slots[i].level > 0 && Vacant(slots, j)
    ensures Disjoint(SplitSlots(slots, i, j))
  {
    var r := SplitSlots(slots, i, j);
    forall p, q | TwoLive(r, p, q)
      ensures Apart(r[p], r[q])
    {
      var p0 := if p == j then i else p;
      var q0 := if q == j then i else q;
      assert TwoLive(slots, p0, q0) || p0 == q0;
    }
  }

  lemma SplitKeepsCover(slots: seq<Slot>, top: nat, i: nat, j: nat)
    requires Covered(slots, top) && IsFree(slots, i) && slots[i].level > 0 && Vacant(slots, j)
    ensures Covered(SplitSlots(slots, i, j), top)
  {
    var x := slots[i];
    var r := SplitSlots(slots, i, j);
    forall a: nat | a < LevelSize(top)
      ensures CoveredAt(r, a)
    {
      assert CoveredAt(slots, a);
      var c :| Covers(slots, c, a);
      assert Covers(r, if c == i && a >= x.offset + LevelSize(x.level - 1) then j else c, a);
    }
  }

  lemma MultipleHalvesOf(s: nat, a: nat)
    requires s > 0 && Multiple(2 * s, a)
    ensures Multiple(s, a)
  {
    assert Multiple(s, 0) && Multiple(s, s) && Multiple(s, 2 * s);
    MultipleOfMultiple(s, 2 * s, a);
  }

  lemma SameOffsetSameSlot(slots: seq<Slot>, i: nat, j: nat)
    requires Disjoint(slots) && Live(slots, i) && Live(slots, j) && slots[i].offset == slots[j].offset
    ensures i == j
  {
    assert TwoLive(slots, i, j) || i == j;
  }

  /** The two halves of a tile are each other's buddies. */
  lemma SplitMakesBuddies(slots: seq<Slot>, i: nat, j: nat)
    requires IsFree(slots, i) && slots[i].level > 0 && Vacant(slots, j) && Aligned(slots[i])
    ensures var r := SplitSlots(slots, i, j);
            FreePair(r, i, j) && FreePair(r, j, i)
  {
    var x := slots[i];
    MultipleHalvesOf(LevelSize(x.level - 1), x.offset);
    BuddyOfAligned(x.offset, x.level - 1);
  }

  /** A slot has one buddy at most. */
  lemma OneBuddy(slots: seq<Slot>, p: nat, q: nat, i: nat)
    requires Disjoint(slots) && FreePair(slots, p, q) && FreePair(slots, p, i)
    ensures q == i
  {
    SameOffsetSameSlot(slots, q, i);
  }

  lemma PairSymmetric(slots: seq<Slot>, p: nat, q: nat)
    requires FreePair(slots, p, q) && Aligned(slots[p])
    ensures FreePair(slots, q, p)
  {
    BuddyOfAligned(slots[p].offset, slots[p].level);
  }

  lemma PairElsewhere(slots: seq<Slot>, i: nat, j: nat, p: nat, q: nat)
    requires IsFree(slots, i) && slots[i].level > 0 && Vacant(slots, j)
    requires FreePair(SplitSlots(slots, i, j), p, q) && p != i && p != j && q != i && q != j
    ensures FreePair(slots, p, q)
  {
    hide BuddyOffset, LevelSize;
  }

  /** Halving slot i can only create a buddy pair that involves i. */
  lemma SplitKeepsCoalesced(slots: seq<Slot>, top: nat, i: nat, j: nat)
    requires Tiled(slots, top) && IsFree(slots, i) && slots[i].level > 0 && Vacant(slots, j)
    requires CoalescedExcept(slots, i)
    ensures CoalescedExcept(SplitSlots(slots, i, j), i)
  {
    SplitKeepsTiling(slots, top, i, j);
    SplitMakesBuddies(slots, i, j);
    var r := SplitSlots(slots, i, j);
    forall p, q | FreePair(r, p, q)
      ensures p == i || q == i
    {
      assert Aligned(r[p]) by { assert Live(r, p); }
      hide SplitSlots, Tiled, Aligned, Vacant, Buddies;
      if p == j {
        OneBuddy(r, j, q, i);
      } else if q == j {
        PairSymmetric(r, p, j);
        OneBuddy(r, j, p, i);
      } else if p != i && q != i {
        PairElsewhere(slots, i, j, p, q);
      }
    }
  }

  ghost predicate Halves(slots: seq<Slot>, lo: nat, hi: nat) {
    && IsFree(slots, lo) && IsFree(slots, hi)
    && slots[lo].level == slots[hi].level
    && slots[hi].offset == slots[lo].End()
    && Multiple(LevelSize(slots[lo].level + 1), slots[lo].offset)
  }

  lemma MergeKeepsTiling(slots: seq<Slot>, top: nat, lo: nat, hi: nat)
    requires Tiled(slots, top) && Halves(slots, lo, hi)
    ensures slots[lo].level < top
    ensures Tiled(MergeSlots(slots, lo, hi), top)
  {
    var l := slots[lo].level;
    var r := MergeSlots(slots, lo, hi);
    if l >= top {
      LevelSizes(top, l);
      assert false;
    }
    forall p, q | TwoLive(r, p, q)
      ensures Apart(r[p], r[q])
    {
      assert TwoLive(slots, p, q);
      assert p == lo ==> TwoLive(slots, hi, q);
      assert q == lo ==> TwoLive(slots, hi, p);
    }
    forall a: nat | a < LevelSize(top)
      ensures CoveredAt(r, a)
    {
      assert CoveredAt(slots, a);
      var c :| Covers(slots, c, a);
      assert Covers(r, if c == hi then lo else c, a);
    }
  }

  lemma MergeKeepsCoalesced(slots: seq<Slot>, lo: nat, hi: nat, i: nat)
    requires Halves(slots, lo, hi) && (i == lo || i == hi)
    requires CoalescedExcept(slots, i)
    ensures CoalescedExcept(MergeSlots(slots, lo, hi), lo)
  {
    var r := MergeSlots(slots, lo, hi);
    forall p, q | FreePair(r, p, q)
      ensures p == lo || q == lo
    {
      assert FreePair(slots, p, q) || p == lo || q == lo;
    }
  }

  /** Two free buddies are the two halves of a tile of the next level, lower offset first. */
  lemma BuddiesAreHalves(slots: seq<Slot>, top: nat, i: nat, j: nat)
    requires Tiled(slots, top) && IsFree(slots, i) && IsFree(slots, j) && Buddies(slots[i], slots[j])
    ensures i != j && slots[i].offset != slots[j].offset
    ensures slots[i].offset < slots[j].offset ==> Halves(slots, i, j)
    ensures slots[j].offset < slots[i].offset ==> Halves(slots, j, i)
  {
    BuddyOfAligned(slots[i].offset, slots[i].level);
  }

  /** Allocating and releasing change no tile's place. */
  lemma StatusKeepsTiling(slots: seq<Slot>, top: nat, i: nat, st: Status)
    requires Tiled(slots, top) && Live(slots, i) && st != Dead
    ensures Tiled(slots[i := slots[i].(status := st)], top)
  {
    var r := slots[i := slots[i].(status := st)];
    forall a: nat | a < LevelSize(top)
      ensures CoveredAt(r, a)
    {
      assert CoveredAt(slots, a);
      var c :| Covers(slots, c, a);
      assert Covers(r, c, a);
    }
  }

  // ----- sums over slots

  lemma SumPut(slots: seq<Slot>, weight: Slot -> nat, j: nat, x: Slot)
    requires j <= |slots|
    ensures Sum(Put(slots, j, x), weight) + (if j < |slots| then weight(slots[j]) else 0)
         == Sum(slots, weight) + weight(x)
  {
    if j < |slots| {
      SumToUpdate(slots, |slots|, j, x, weight);
    } else {
      SumAppend(slots, x, weight);
    }
  }
}
