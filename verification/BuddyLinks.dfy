/**
 * Block records linked by slot number: the doubly linked free lists and the singly linked
 * stack of dead slots, and the two list edits every allocator operation is made of.
 */
module BuddyLinks {
  import opened BuddyLayout
  import opened BuddyModel

  const NULL := -1

  datatype Block = Block(next: int, prev: int, offset: nat, size: nat, isFree: bool, level: nat)

  function At(xs: seq<nat>, k: int): int {
    if 0 <= k < |xs| then xs[k] else NULL
  }

  ghost predicate LinkedAt(blocks: seq<Block>, xs: seq<nat>, k: nat, level: nat)
    requires k < |xs|
  {
    && xs[k] < |blocks|
    && blocks[xs[k]].next == At(xs, k + 1) && blocks[xs[k]].prev == At(xs, k - 1)
    && blocks[xs[k]].isFree && blocks[xs[k]].level == level
  }

  /** The list that starts at `head` runs through exactly `xs`, linked both ways. */
  ghost predicate Chain(blocks: seq<Block>, head: int, xs: seq<nat>, level: nat) {
    && head == At(xs, 0) && NoDup(xs)
    && forall k :: 0 <= k < |xs| ==> LinkedAt(blocks, xs, k, level)
  }

  ghost predicate LinksOk(blocks: seq<Block>, heads: seq<int>, lists: seq<seq<nat>>) {
    && |heads| == |lists| == NUM_BUDDY_LEVELS
    && forall l :: 0 <= l < |lists| ==> Chain(blocks, heads[l], lists[l], l)
  }

  /** The stack of dead slots: linked one way through blocks that are not free. */
  ghost predicate DeadChain(blocks: seq<Block>, head: int, dead: seq<nat>) {
    && head == At(dead, 0)
    && forall k :: 0 <= k < |dead| ==>
         dead[k] < |blocks| && blocks[dead[k]].next == At(dead, k + 1) && !blocks[dead[k]].isFree
  }

  ghost predicate Matches(b: Block, x: Slot) {
    b.offset == x.offset && b.size == x.size && b.level == x.level && (b.isFree <==> x.status == Free)
  }

  ghost predicate SlotsMatch(blocks: seq<Block>, slots: seq<Slot>) {
    |blocks| == |slots| && forall i :: 0 <= i < |blocks| ==> Matches(blocks[i], slots[i])
  }

  /** `r` differs from `s` in the links of some blocks only. */
  ghost predicate SameButLinks(s: seq<Block>, r: seq<Block>) {
    |r| == |s| && forall i :: 0 <= i < |s| ==> r[i] == s[i].(next := r[i].next, prev := r[i].prev)
  }

  /** Blocks that are not free keep even their links. */
  ghost predicate BusyUntouched(s: seq<Block>, r: seq<Block>) {
    |r| == |s| && forall i :: 0 <= i < |s| && !s[i].isFree ==> r[i] == s[i]
  }

  function UnlinkBlocks(blocks: seq<Block>, i: nat): (r: seq<Block>)
    requires i < |blocks|
    requires NULL <= blocks[i].prev < |blocks| && NULL <= blocks[i].next < |blocks|
  {
    var p, n := blocks[i].prev, blocks[i].next;
    var s := if p != NULL then blocks[p := blocks[p].(next := n)] else blocks;
    if n != NULL then s[n := s[n].(prev := p)] else s
  }

  function UnlinkHeads(blocks: seq<Block>, heads: seq<int>, i: nat): (r: seq<int>)
    requires i < |blocks| && blocks[i].level < |heads|
  {
    if blocks[i].prev != NULL then heads else heads[blocks[i].level := blocks[i].next]
  }

  function PushBlocks(blocks: seq<Block>, head: int, i: nat): (r: seq<Block>)
    requires i < |blocks| && NULL <= head < |blocks|
  {
    var s := blocks[i := blocks[i].(next := head, prev := NULL)];
    if head != NULL then s[head := s[head].(prev := i)] else s
  }

  // ----- positions

  lemma {:induction false} WithoutAt(xs: seq<nat>, k: nat)
    requires NoDup(xs) && k < |xs|
    ensures Without(xs, xs[k]) == xs[..k] + xs[k + 1..]
  {
    if k != 0 {
      assert xs[0] != xs[k];
      WithoutAt(xs[1..], k - 1);
      assert xs[1..][..k - 1] == xs[1..k];
      assert xs[1..][k..] == xs[k + 1..];
    }
  }

  lemma ChainFrame(s: seq<Block>, r: seq<Block>, head: int, xs: seq<nat>, level: nat)
    requires Chain(s, head, xs, level)
    requires |s| <= |r| && forall k :: 0 <= k < |xs| && xs[k] < |s| ==> r[xs[k]] == s[xs[k]]
    ensures Chain(r, head, xs, level)
  {
    forall k | 0 <= k < |xs|
      ensures LinkedAt(r, xs, k, level)
    {
      assert LinkedAt(s, xs, k, level);
    }
  }

  // ----- unlinking

  lemma UnlinkInBounds(blocks: seq<Block>, head: int, xs: seq<nat>, k: nat, level: nat)
    requires Chain(blocks, head, xs, level) && k < |xs|
    ensures xs[k] < |blocks| && blocks[xs[k]].next == At(xs, k + 1) && blocks[xs[k]].prev == At(xs, k - 1)
    ensures NULL <= blocks[xs[k]].prev < |blocks| && NULL <= blocks[xs[k]].next < |blocks|
  {
    assert LinkedAt(blocks, xs, k, level);
    assert k > 0 ==> LinkedAt(blocks, xs, k - 1, level);
    assert k + 1 < |xs| ==> LinkedAt(blocks, xs, k + 1, level);
  }

  /** Removing the k-th member leaves a chain through the others. */
  lemma UnlinkChain(blocks: seq<Block>, heads: seq<int>, xs: seq<nat>, k: nat, level: nat)
    requires level < |heads| && Chain(blocks, heads[level], xs, level) && k < |xs|
    requires xs[k] < |blocks| && blocks[xs[k]].level == level
    requires NULL <= blocks[xs[k]].prev < |blocks| && NULL <= blocks[xs[k]].next < |blocks|
    ensures Chain(UnlinkBlocks(blocks, xs[k]), UnlinkHeads(blocks, heads, xs[k])[level],
                  Without(xs, xs[k]), level)
  {
    UnlinkInBounds(blocks, heads[level], xs, k, level);
    WithoutAt(xs, k);
    var ys := xs[..k] + xs[k + 1..];
    var r := UnlinkBlocks(blocks, xs[k]);
    forall j | 0 <= j < |ys|
      ensures LinkedAt(r, ys, j, level)
    {
      UnlinkedAt(blocks, heads[level], xs, k, level, j);
    }
    RemovalNoDup(xs, k);
  }

  lemma RemovalNoDup(xs: seq<nat>, k: nat)
    requires NoDup(xs) && k < |xs|
    ensures NoDup(xs[..k] + xs[k + 1..])
  {
    var ys := xs[..k] + xs[k + 1..];
    forall p, q | 0 <= p < q < |ys|
      ensures ys[p] != ys[q]
    {
      assert ys[p] == xs[if p < k then p else p + 1];
      assert ys[q] == xs[if q < k then q else q + 1];
    }
  }

  lemma UnlinkedAt(blocks: seq<Block>, head: int, xs: seq<nat>, k: nat, level: nat, j: nat)
    requires Chain(blocks, head, xs, level) && k < |xs| && j < |xs| - 1
    requires xs[k] < |blocks|
    requires NULL <= blocks[xs[k]].prev < |blocks| && NULL <= blocks[xs[k]].next < |blocks|
    ensures LinkedAt(UnlinkBlocks(blocks, xs[k]), xs[..k] + xs[k + 1..], j, level)
  {
    var ys := xs[..k] + xs[k + 1..];
    var m := if j < k then j else j + 1;
    assert ys[j] == xs[m];
    assert LinkedAt(blocks, xs, m, level) && LinkedAt(blocks, xs, k, level);
    assert xs[m] != xs[k];
    assert At(ys, j + 1) == At(xs, if j + 1 < k then j + 1 else j + 2);
    assert At(ys, j - 1) == At(xs, if j - 1 < k then j - 1 else j);
    if m + 1 != k {
      assert k > 0 ==> xs[m] != xs[k - 1];
    }
    if m != k + 1 {
      assert k + 1 < |xs| ==> xs[m] != xs[k + 1];
    }
  }

  lemma UnlinkFrame(blocks: seq<Block>, head: int, xs: seq<nat>, k: nat, level: nat)
    requires Chain(blocks, head, xs, level) && k < |xs|
    requires xs[k] < |blocks|
    requires NULL <= blocks[xs[k]].prev < |blocks| && NULL <= blocks[xs[k]].next < |blocks|
    ensures var r := UnlinkBlocks(blocks, xs[k]);
            && SameButLinks(blocks, r) && BusyUntouched(blocks, r)
            && forall i :: 0 <= i < |blocks| && blocks[i].level != level ==> r[i] == blocks[i]
  {
    UnlinkInBounds(blocks, head, xs, k, level);
    assert k > 0 ==> LinkedAt(blocks, xs, k - 1, level);
    assert k + 1 < |xs| ==> LinkedAt(blocks, xs, k + 1, level);
  }

  /** Unlinking one free block keeps every list of the allocator. */
  lemma UnlinkKeepsLinks(blocks: seq<Block>, heads: seq<int>, lists: seq<seq<nat>>, i: nat)
    requires LinksOk(blocks, heads, lists) && i < |blocks|
    requires blocks[i].level < |lists| && i in lists[blocks[i].level]
    ensures NULL <= blocks[i].prev < |blocks| && NULL <= blocks[i].next < |blocks|
    ensures var l := blocks[i].level;
            var r := UnlinkBlocks(blocks, i);
            && LinksOk(r, UnlinkHeads(blocks, heads, i), lists[l := Without(lists[l], i)])
            && SameButLinks(blocks, r) && BusyUntouched(blocks, r)
  {
    var l := blocks[i].level;
    var xs := lists[l];
    var k :| 0 <= k < |xs| && xs[k] == i;
    assert Chain(blocks, heads[l], xs, l);
    UnlinkInBounds(blocks, heads[l], xs, k, l);
    UnlinkChain(blocks, heads, xs, k, l);
    UnlinkFrame(blocks, heads[l], xs, k, l);
    var r := UnlinkBlocks(blocks, i);
    forall m | 0 <= m < |lists| && m != l
      ensures Chain(r, heads[m], lists[m], m)
    {
      OtherChain(blocks, r, heads[m], lists[m], m, l);
    }
  }

  lemma OtherChain(s: seq<Block>, r: seq<Block>, head: int, xs: seq<nat>, level: nat, other: nat)
    requires Chain(s, head, xs, level) && level != other && |r| == |s|
    requires forall i :: 0 <= i < |s| && s[i].level != other ==> r[i] == s[i]
    ensures Chain(r, head, xs, level)
  {
    forall k | 0 <= k < |xs|
      ensures xs[k] < |s| && r[xs[k]] == s[xs[k]]
    {
      assert LinkedAt(s, xs, k, level);
    }
    ChainFrame(s, r, head, xs, level);
  }

  // ----- pushing

  lemma PushChain(blocks: seq<Block>, head: int, xs: seq<nat>, i: nat, level: nat)
    requires Chain(blocks, head, xs, level) && i < |blocks| && i !in xs && NULL <= head < |blocks|
    requires blocks[i].isFree && blocks[i].level == level
    ensures Chain(PushBlocks(blocks, head, i), i, [i] + xs, level)
  {
    var ys := [i] + xs;
    var r := PushBlocks(blocks, head, i);
    forall k | 0 <= k < |ys|
      ensures LinkedAt(r, ys, k, level)
    {
      if k > 0 {
        assert LinkedAt(blocks, xs, k - 1, level);
        assert k > 1 ==> xs[k - 1] != xs[0];
      }
    }
  }

  /** Pushing a free block that is in no list keeps every list of the allocator. */
  lemma PushKeepsLinks(blocks: seq<Block>, heads: seq<int>, lists: seq<seq<nat>>, i: nat)
    requires LinksOk(blocks, heads, lists) && i < |blocks| && blocks[i].isFree
    requires blocks[i].level < |lists| && i !in lists[blocks[i].level]
    ensures var l := blocks[i].level;
            && NULL <= heads[l] < |blocks|
            && var r := PushBlocks(blocks, heads[l], i);
            && LinksOk(r, heads[l := i], lists[l := [i] + lists[l]])
            && SameButLinks(blocks, r) && BusyUntouched(blocks, r)
  {
    var l := blocks[i].level;
    var xs := lists[l];
    assert Chain(blocks, heads[l], xs, l);
    assert |xs| > 0 ==> LinkedAt(blocks, xs, 0, l);
    PushChain(blocks, heads[l], xs, i, l);
    var r := PushBlocks(blocks, heads[l], i);
    assert forall k :: 0 <= k < |blocks| && blocks[k].level != l ==> r[k] == blocks[k];
    forall m | 0 <= m < |lists| && m != l
      ensures Chain(r, heads[m], lists[m], m)
    {
      OtherChain(blocks, r, heads[m], lists[m], m, l);
    }
  }

  ghost predicate Unlisted(lists: seq<seq<nat>>, i: nat) {
    forall l :: 0 <= l < |lists| ==> i !in lists[l]
  }

  /** Changes to blocks outside every list are no concern of the lists. */
  lemma OutsideKeepsLinks(s: seq<Block>, r: seq<Block>, heads: seq<int>, lists: seq<seq<nat>>, i: nat, j: nat)
    requires LinksOk(s, heads, lists) && |s| <= |r|
    requires Unlisted(lists, i) && Unlisted(lists, j)
    requires forall k :: 0 <= k < |s| && k != i && k != j ==> r[k] == s[k]
    ensures LinksOk(r, heads, lists)
  {
    forall l | 0 <= l < |lists|
      ensures Chain(r, heads[l], lists[l], l)
    {
      assert i !in lists[l] && j !in lists[l];
      ChainFrame(s, r, heads[l], lists[l], l);
    }
  }

  lemma DeadUntouched(s: seq<Block>, r: seq<Block>, head: int, dead: seq<nat>)
    requires DeadChain(s, head, dead) && BusyUntouched(s, r)
    ensures DeadChain(r, head, dead)
  {
  }

  lemma DeadFrame(s: seq<Block>, r: seq<Block>, head: int, dead: seq<nat>, i: nat, j: nat)
    requires DeadChain(s, head, dead) && |s| <= |r| && i !in dead && j !in dead
    requires forall k :: 0 <= k < |s| && k != i && k != j ==> r[k] == s[k]
    ensures DeadChain(r, head, dead)
  {
  }

  lemma NoneDead(blocks: seq<Block>)
    ensures DeadChain(blocks, NULL, [])
  {
  }

  lemma DeadPop(blocks: seq<Block>, head: int, dead: seq<nat>)
    requires DeadChain(blocks, head, dead) && dead != []
    ensures dead[0] < |blocks| && DeadChain(blocks, blocks[dead[0]].next, dead[1..])
  {
    var rest := dead[1..];
    forall k | 0 <= k < |rest|
      ensures rest[k] < |blocks| && blocks[rest[k]].next == At(rest, k + 1) && !blocks[rest[k]].isFree
    {
      assert rest[k] == dead[k + 1] && At(rest, k + 1) == At(dead, k + 2);
    }
  }

  lemma DeadPush(blocks: seq<Block>, head: int, dead: seq<nat>, i: nat)
    requires DeadChain(blocks, head, dead) && i < |blocks|
    requires blocks[i].next == head && !blocks[i].isFree
    ensures DeadChain(blocks, i, [i] + dead)
  {
    var all := [i] + dead;
    forall k | 0 <= k < |all|
      ensures all[k] < |blocks| && blocks[all[k]].next == At(all, k + 1) && !blocks[all[k]].isFree
    {
      if k > 0 {
        assert all[k] == dead[k - 1] && At(all, k + 1) == At(dead, k);
      }
    }
  }

  lemma LinksOnly(s: seq<Block>, r: seq<Block>, slots: seq<Slot>)
    requires SlotsMatch(s, slots) && SameButLinks(s, r)
    ensures SlotsMatch(r, slots)
  {
    forall i | 0 <= i < |r|
      ensures Matches(r[i], slots[i])
    {
      assert Matches(s[i], slots[i]);
    }
  }

  /** Writing the same change to a block and to its slot keeps the two in step. */
  lemma PutMatches(blocks: seq<Block>, slots: seq<Slot>, i: nat, b: Block, x: Slot)
    requires SlotsMatch(blocks, slots) && i <= |blocks| && Matches(b, x)
    ensures SlotsMatch(if i < |blocks| then blocks[i := b] else blocks + [b], Put(slots, i, x))
  {
    var r := if i < |blocks| then blocks[i := b] else blocks + [b];
    forall k | 0 <= k < |r|
      ensures Matches(r[k], Put(slots, i, x)[k])
    {
      assert k != i ==> Matches(blocks[k], slots[k]);
    }
  }

  // ----- what the invariant of the model says about lists and slots

  lemma FreeIsListed(m: Buddy, i: nat)
    requires Inv(m) && IsFree(m.slots, i)
    ensures m.slots[i].level < |m.lists| == NUM_BUDDY_LEVELS && i in m.lists[m.slots[i].level]
  {
    assert Live(m.slots, i);
    assert HoldsFree(m.slots, m.lists[m.slots[i].level], m.slots[i].level);
  }

  lemma BusyIsUnlisted(m: Buddy, i: nat)
    requires Inv(m) && !IsFree(m.slots, i)
    ensures Unlisted(m.lists, i)
  {
    forall l | 0 <= l < |m.lists|
      ensures i !in m.lists[l]
    {
      assert HoldsFree(m.slots, m.lists[l], l);
    }
  }

  /** Once taken out of the list of its level, a free slot is in no list. */
  lemma RemovedIsUnlisted(m: Buddy, i: nat)
    requires Inv(m) && IsFree(m.slots, i) && m.slots[i].level < |m.lists|
    ensures var l := m.slots[i].level;
            Unlisted(m.lists[l := Without(m.lists[l], i)], i)
  {
    var l := m.slots[i].level;
    WithoutRemoves(m.lists[l], i);
    forall k | 0 <= k < |m.lists| && k != l
      ensures i !in m.lists[k]
    {
      assert HoldsFree(m.slots, m.lists[k], k);
    }
  }

  lemma UnlistedWithout(lists: seq<seq<nat>>, l: nat, i: nat, j: nat)
    requires Unlisted(lists, j) && l < |lists|
    ensures Unlisted(lists[l := Without(lists[l], i)], j)
  {
  }

  lemma LiveIsNotDead(m: Buddy, i: nat)
    requires Inv(m) && Live(m.slots, i)
    ensures i !in m.dead && m.slots[i].level < NUM_BUDDY_LEVELS
  {
  }
}
