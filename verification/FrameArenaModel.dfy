/**
 * The triple-buffered frame arena on values. Addresses are numbers; a mapping call offers a
 * base address or fails, and never hands out memory that is still mapped.
 */
module FrameArenaModel {
  import opened Basics
  import opened Bits

  const ARENA_COUNT := 3
  const ALIGNMENT := 16
  const MIN_SIZE := 16 * 1024 * 1024
  const DEFAULT_SIZE := 64 * 1024 * 1024
  const MAX_SIZE := 256 * 1024 * 1024
  const WINDOW := 60
  /** The frame counter is a 32-bit word. */
  const FRAME_RANGE := 0x1_0000_0000

  datatype Chunk = Chunk(base: nat, capacity: nat) {
    function End(): nat { base + capacity }
  }

  datatype Range = Range(addr: nat, size: nat) {
    function End(): nat { addr + size }
  }

  /** The last five fields record the history the theorems speak of: the first capacity, the
      growths of the arena's whole life, the ranges handed out since its last reset, the bytes
      in use after each allocation it ever served, and those at each of its resets. */
  datatype Arena = Arena(
    chunk: Chunk,
    maxCapacity: nat,
    offset: nat,
    retired: seq<Chunk>,
    retiredBytes: nat,
    peakUsage: nat,
    history: seq<nat>,
    historyIndex: nat,
    usageSum: nat,
    rollingAverage: nat,
    initial: nat,
    growths: nat,
    allocs: seq<Range>,
    usages: seq<nat>,
    finished: seq<nat>)

  datatype System = System(arenas: seq<Arena>, frame: nat)

  // ----- operations

  function Round16(size: nat): (n: nat)
    ensures n % ALIGNMENT == 0 && size <= n < size + ALIGNMENT
  {
    (size + ALIGNMENT - 1) / ALIGNMENT * ALIGNMENT
  }

  function ArenaIndex(frame: nat): (i: nat)
    ensures i < ARENA_COUNT
  {
    frame % FRAME_RANGE % ARENA_COUNT
  }

  function NewCapacity(a: Arena): (n: nat) {
    if 2 * a.chunk.capacity > a.maxCapacity then a.maxCapacity else 2 * a.chunk.capacity
  }

  function Grow(a: Arena, base: nat): Arena {
    a.(chunk := Chunk(base, NewCapacity(a)),
       retired := [a.chunk] + a.retired,
       retiredBytes := a.retiredBytes + a.offset,
       offset := 0,
       growths := a.growths + 1)
  }

  function Max(x: nat, y: nat): nat { if x > y then x else y }

  function Bump(a: Arena, n: nat): Arena {
    a.(offset := a.offset + n,
       peakUsage := Max(a.peakUsage, a.retiredBytes + a.offset + n),
       allocs := a.allocs + [Range(a.chunk.base + a.offset, n)],
       usages := a.usages + [a.retiredBytes + a.offset + n])
  }

  predicate ChunksApart(x: Chunk, y: Chunk) {
    x.End() <= y.base || y.End() <= x.base
  }

  function Chunks(a: Arena): seq<Chunk> {
    [a.chunk] + a.retired
  }

  predicate ClearOf(a: Arena, c: Chunk) {
    forall k :: 0 <= k < |Chunks(a)| ==> ChunksApart(c, Chunks(a)[k])
  }

  /** Memory a mapping call may return: aligned, not at NULL, clear of everything mapped. */
  predicate Mappable(s: System, c: Chunk) {
    && c.base > 0 && Multiple(ALIGNMENT, c.base)
    && forall i :: 0 <= i < |s.arenas| ==> ClearOf(s.arenas[i], c)
  }

  /** One allocation; None means that it is served by the persistent heap instead. */
  function Alloc(s: System, size: nat, offered: Option<nat>): (System, Option<nat>)
    requires |s.arenas| == ARENA_COUNT
  {
    var n, i := Round16(size), ArenaIndex(s.frame);
    var a := s.arenas[i];
    if a.offset + n <= a.chunk.capacity then
      (s.(arenas := s.arenas[i := Bump(a, n)]), Some(a.chunk.base + a.offset))
    else if NewCapacity(a) > a.chunk.capacity && offered.Some? && Mappable(s, Chunk(offered.value, NewCapacity(a))) then
      var g := Grow(a, offered.value);
      if n <= g.chunk.capacity then (s.(arenas := s.arenas[i := Bump(g, n)]), Some(g.chunk.base))
      else (s.(arenas := s.arenas[i := g]), None)
    else (s, None)
  }

  function Averaged(a: Arena): Arena
    requires a.historyIndex < |a.history| && a.usageSum >= a.history[a.historyIndex]
  {
    var entering := a.retiredBytes + a.offset;
    var sum := a.usageSum - a.history[a.historyIndex] + entering;
    a.(history := a.history[a.historyIndex := entering],
       historyIndex := (a.historyIndex + 1) % WINDOW,
       usageSum := sum,
       rollingAverage := sum / WINDOW,
       finished := a.finished + [entering])
  }

  function Cleared(a: Arena): Arena {
    a.(retired := [], retiredBytes := 0, offset := 0, allocs := [])
  }

  function Reset(s: System): System
    requires Inv(s)
  {
    var i := ArenaIndex(s.frame + 1);
    assert ArenaOk(s.arenas[i]);
    HistoryEntryBelowSum(s.arenas[i].history, WINDOW, s.arenas[i].historyIndex);
    System(s.arenas[i := Cleared(Averaged(s.arenas[i]))], s.frame + 1)
  }

  predicate Contains(a: Arena, p: nat) {
    exists k :: 0 <= k < |Chunks(a)| && Chunks(a)[k].base <= p < Chunks(a)[k].End()
  }

  predicate IsFramePointer(s: System, p: nat) {
    p != 0 && exists i :: 0 <= i < |s.arenas| && Contains(s.arenas[i], p)
  }

  // ----- initial sizes

  function ArenaSize(configured: nat): (n: nat)
    ensures MIN_SIZE <= n <= MAX_SIZE
    ensures configured == 0 ==> n == DEFAULT_SIZE
    ensures MIN_SIZE <= configured <= MAX_SIZE ==> n == configured
    ensures 0 < configured < MIN_SIZE ==> n == MIN_SIZE
    ensures configured > MAX_SIZE ==> n == MAX_SIZE
  {
    var n := if configured == 0 then DEFAULT_SIZE else configured;
    var n1 := if n < MIN_SIZE then MIN_SIZE else n;
    if n1 > MAX_SIZE then MAX_SIZE else n1
  }

  function MaxSize(configured: nat, arenaSize: nat): (n: nat)
    requires arenaSize <= MAX_SIZE
    ensures arenaSize <= n <= MAX_SIZE
    ensures configured == 0 || configured > MAX_SIZE ==> n == MAX_SIZE
    ensures 0 < configured && arenaSize <= configured <= MAX_SIZE ==> n == configured
    ensures 0 < configured < arenaSize ==> n == arenaSize
  {
    var n := if configured == 0 then MAX_SIZE else configured;
    var n1 := if n < arenaSize then arenaSize else n;
    if n1 > MAX_SIZE then MAX_SIZE else n1
  }

  function Fresh(base: nat, size: nat, max: nat): Arena {
    Arena(Chunk(base, size), max, 0, [], 0, 0, seq(WINDOW, _ => 0), 0, 0, 0, size, 0, [], [], [])
  }

  /** What three mapping calls for chunks of a size return: separate, aligned, not NULL. */
  predicate BasesOk(size: nat, b0: nat, b1: nat, b2: nat) {
    && b0 > 0 && b1 > 0 && b2 > 0
    && Multiple(ALIGNMENT, b0) && Multiple(ALIGNMENT, b1) && Multiple(ALIGNMENT, b2)
    && ChunksApart(Chunk(b0, size), Chunk(b1, size)) && ChunksApart(Chunk(b0, size), Chunk(b2, size))
    && ChunksApart(Chunk(b1, size), Chunk(b2, size))
  }

  function Start(size: nat, max: nat, b0: nat, b1: nat, b2: nat): System {
    System([Fresh(b0, size, max), Fresh(b1, size, max), Fresh(b2, size, max)], 0)
  }

  // ----- the invariant

  /** Range r lies in the used part of the current chunk (j == 0) or in retired chunk j - 1. */
  predicate InChunk(a: Arena, r: Range, j: nat) {
    if j == 0 then a.chunk.base <= r.addr && r.End() <= a.chunk.base + a.offset
    else j <= |a.retired| && a.retired[j - 1].base <= r.addr && r.End() <= a.retired[j - 1].End()
  }

  ghost predicate Placed(a: Arena, r: Range) {
    Multiple(ALIGNMENT, r.addr) && exists j: nat :: InChunk(a, r, j)
  }

  predicate RangesApart(r: Range, q: Range) {
    r.End() <= q.addr || q.End() <= r.addr
  }

  ghost predicate AllocsOk(a: Arena) {
    && (forall k :: 0 <= k < |a.allocs| ==> Placed(a, a.allocs[k]))
    && (forall j, k :: 0 <= j < k < |a.allocs| ==> RangesApart(a.allocs[j], a.allocs[k]))
  }

  ghost predicate SelfApart(a: Arena) {
    forall j, k :: 0 <= j < k < |Chunks(a)| ==> ChunksApart(Chunks(a)[j], Chunks(a)[k])
  }

  function RangeSize(r: Range): nat { r.size }
  function ChunkCapacity(c: Chunk): nat { c.capacity }
  function Entry(x: nat): nat { x }

  function MaxTo(xs: seq<nat>, n: nat): (m: nat)
    requires n <= |xs|
    ensures forall k :: 0 <= k < n ==> xs[k] <= m
    ensures n == 0 || exists k :: 0 <= k < n && xs[k] == m
  {
    if n == 0 then 0 else Max(MaxTo(xs, n - 1), xs[n - 1])
  }

  lemma {:induction false} MaxToPrefix(xs: seq<nat>, x: nat, n: nat)
    requires n <= |xs|
    ensures MaxTo(xs + [x], n) == MaxTo(xs, n)
  {
    if n != 0 {
      MaxToPrefix(xs, x, n - 1);
    }
  }

  /** The sum of the last elements of xs, at most WINDOW of them. */
  function RecentSum(xs: seq<nat>): nat {
    if |xs| <= WINDOW then Sum(xs, Entry) else Sum(xs[|xs| - WINDOW..], Entry)
  }

  /** The ring holds the bytes in use at the arena's last resets, each in the slot of its
      number, and zeros before there are that many. */
  ghost predicate HistoryOk(a: Arena) {
    && |a.history| == WINDOW && a.historyIndex == |a.finished| % WINDOW
    && (forall n :: 0 <= n < |a.finished| && |a.finished| <= n + WINDOW ==> a.history[n % WINDOW] == a.finished[n])
    && (forall i :: |a.finished| <= i < WINDOW ==> a.history[i] == 0)
    && a.usageSum == RecentSum(a.finished)
  }

  /** Bytes used since the last reset are the sizes handed out, the peak is the highest such
      figure of the whole run, and the running sum is the sum of the window. */
  ghost predicate BooksOk(a: Arena) {
    && a.retiredBytes + a.offset == Sum(a.allocs, RangeSize)
    && a.retiredBytes + a.offset <= a.peakUsage == MaxTo(a.usages, |a.usages|)
    && |a.history| == WINDOW && a.historyIndex < WINDOW
    && a.usageSum == SumTo(a.history, WINDOW, Entry)
  }

  function Doubled(n: nat, times: nat): nat {
    if times == 0 then n else 2 * Doubled(n, times - 1)
  }

  lemma {:induction false} DoubledGrows(n: nat, g: nat, h: nat)
    requires g <= h
    ensures Doubled(n, g) <= Doubled(n, h)
  {
    if g < h {
      DoubledGrows(n, g, h - 1);
    }
  }

  /** The capacity after g growths is 2^g times the initial one, cut at the maximum; the last
      growth started below the maximum. */
  ghost predicate GrowthOk(a: Arena) {
    && 0 < a.initial <= a.maxCapacity
    && a.chunk.capacity <= a.maxCapacity
    && (a.growths == 0 ==> a.chunk.capacity == a.initial)
    && (a.growths > 0 ==> Doubled(a.initial, a.growths - 1) < a.maxCapacity)
    && (a.chunk.capacity == Doubled(a.initial, a.growths) || a.chunk.capacity == a.maxCapacity)
    && a.chunk.capacity <= Doubled(a.initial, a.growths)
    && Sum(a.retired, ChunkCapacity) + a.initial <= Doubled(a.initial, a.growths)
  }

  ghost predicate ArenaOk(a: Arena) {
    && a.chunk.base > 0 && Multiple(ALIGNMENT, a.chunk.base)
    && a.offset <= a.chunk.capacity && Multiple(ALIGNMENT, a.offset)
    && (forall k :: 0 <= k < |a.retired| ==> a.retired[k].base > 0)
    && SelfApart(a) && AllocsOk(a) && BooksOk(a) && HistoryOk(a) && GrowthOk(a)
  }

  ghost predicate Separate(a: Arena, b: Arena) {
    forall j :: 0 <= j < |Chunks(a)| ==> ClearOf(b, Chunks(a)[j])
  }

  ghost predicate Inv(s: System) {
    && |s.arenas| == ARENA_COUNT
    && (forall i :: 0 <= i < ARENA_COUNT ==> ArenaOk(s.arenas[i]))
    && (forall i, j :: 0 <= i < ARENA_COUNT && 0 <= j < ARENA_COUNT && i != j ==> Separate(s.arenas[i], s.arenas[j]))
  }

  lemma {:induction false} HistoryEntryBelowSum(xs: seq<nat>, n: nat, k: nat)
    requires k < n <= |xs|
    ensures xs[k] <= SumTo(xs, n, Entry)
  {
    if k < n - 1 {
      HistoryEntryBelowSum(xs, n - 1, k);
    }
  }

  lemma {:induction false} SumToCons<T>(x: T, xs: seq<T>, n: nat, weight: T -> nat)
    requires n <= |xs|
    ensures SumTo([x] + xs, n + 1, weight) == weight(x) + SumTo(xs, n, weight)
  {
    if n != 0 {
      SumToCons(x, xs, n - 1, weight);
    } else {
      assert SumTo([x] + xs, 0, weight) == 0;
    }
  }

  // ----- bump

  lemma BumpKeepsArena(a: Arena, n: nat)
    requires ArenaOk(a) && a.offset + n <= a.chunk.capacity && Multiple(ALIGNMENT, n)
    ensures ArenaOk(Bump(a, n)) && Chunks(Bump(a, n)) == Chunks(a)
  {
    hide AllocsOk, BooksOk, GrowthOk, SelfApart;
    var r := Bump(a, n);
    BumpFields(a, n);
    BumpKeepsGrowth(a, n);
    MultipleSum(ALIGNMENT, a.offset, n);
    MultipleSum(ALIGNMENT, a.chunk.base, a.offset);
    BumpKeepsAllocs(a, n);
    BumpKeepsBooks(a, n);
    SameChunksApart(a, r);
  }

  lemma BumpFields(a: Arena, n: nat)
    ensures var r := Bump(a, n);
            r.chunk == a.chunk && r.retired == a.retired && r.offset == a.offset + n && Chunks(r) == Chunks(a)
  {
  }

  lemma SameChunksApart(a: Arena, r: Arena)
    requires SelfApart(a) && Chunks(r) == Chunks(a)
    ensures SelfApart(r)
  {
  }

  lemma BumpKeepsGrowth(a: Arena, n: nat)
    requires GrowthOk(a)
    ensures GrowthOk(Bump(a, n))
  {
  }

  lemma BumpKeepsBooks(a: Arena, n: nat)
    requires BooksOk(a)
    ensures BooksOk(Bump(a, n))
  {
    MaxToPrefix(a.usages, a.retiredBytes + a.offset + n, |a.usages|);
    SumAppend(a.allocs, Range(a.chunk.base + a.offset, n), RangeSize);
  }

  lemma StaysInChunk(a: Arena, n: nat, r: Range, j: nat)
    requires InChunk(a, r, j)
    ensures InChunk(Bump(a, n), r, j)
  {
  }

  lemma RetiredApart(a: Arena, j: nat)
    requires SelfApart(a) && 0 < j <= |a.retired|
    ensures ChunksApart(a.chunk, a.retired[j - 1])
  {
    assert Chunks(a)[0] == a.chunk && Chunks(a)[j] == a.retired[j - 1];
  }

  lemma ApartFromNewest(a: Arena, n: nat, r: Range, j: nat)
    requires InChunk(a, r, j) && a.offset + n <= a.chunk.capacity
    requires j > 0 ==> ChunksApart(a.chunk, a.retired[j - 1])
    ensures RangesApart(r, Range(a.chunk.base + a.offset, n))
  {
  }

  /** A new range meets none of the earlier ones. */
  lemma BumpOne(a: Arena, n: nat, r: Range)
    requires SelfApart(a) && a.offset + n <= a.chunk.capacity && Placed(a, r)
    ensures Placed(Bump(a, n), r) && RangesApart(r, Range(a.chunk.base + a.offset, n))
  {
    var j: nat :| InChunk(a, r, j);
    assert j > 0 ==> j <= |a.retired|;
    hide Multiple, SelfApart, InChunk, ChunksApart, RangesApart, Bump;
    StaysInChunk(a, n, r, j);
    if j > 0 {
      RetiredApart(a, j);
    }
    ApartFromNewest(a, n, r, j);
  }

  lemma BumpKeepsAllocs(a: Arena, n: nat)
    requires SelfApart(a) && AllocsOk(a) && a.offset + n <= a.chunk.capacity
    requires Multiple(ALIGNMENT, a.chunk.base + a.offset)
    ensures AllocsOk(Bump(a, n))
  {
    hide Multiple, InChunk, SelfApart;
    var r := Bump(a, n);
    var q := Range(a.chunk.base + a.offset, n);
    NewestPlaced(a, n);
    forall k | 0 <= k < |r.allocs|
      ensures Placed(r, r.allocs[k]) && (k < |a.allocs| ==> RangesApart(r.allocs[k], q))
    {
      if k < |a.allocs| {
        assert Placed(a, a.allocs[k]);
        BumpOne(a, n, a.allocs[k]);
      }
    }
    forall j, k | 0 <= j < k < |r.allocs|
      ensures RangesApart(r.allocs[j], r.allocs[k])
    {
      assert r.allocs[j] == a.allocs[j];
    }
  }

  lemma NewestPlaced(a: Arena, n: nat)
    requires Multiple(ALIGNMENT, a.chunk.base + a.offset)
    ensures Placed(Bump(a, n), Range(a.chunk.base + a.offset, n))
  {
    assert InChunk(Bump(a, n), Range(a.chunk.base + a.offset, n), 0);
  }

  // ----- grow

  lemma GrowKeepsArena(a: Arena, base: nat)
    requires ArenaOk(a) && NewCapacity(a) > a.chunk.capacity
    requires base > 0 && Multiple(ALIGNMENT, base) && ClearOf(a, Chunk(base, NewCapacity(a)))
    ensures ArenaOk(Grow(a, base)) && Chunks(Grow(a, base)) == [Chunk(base, NewCapacity(a))] + Chunks(a)
  {
    hide AllocsOk, GrowthOk, SelfApart, ClearOf;
    var r := Grow(a, base);
    assert Chunks(r) == [Chunk(base, NewCapacity(a))] + Chunks(a);
    GrowKeepsApart(a, r, Chunk(base, NewCapacity(a)));
    GrowKeepsAllocs(a, base);
    GrowKeepsGrowth(a, base);
    assert forall k :: 0 < k < |r.retired| ==> r.retired[k] == a.retired[k - 1];
  }

  lemma GrowKeepsApart(a: Arena, r: Arena, c: Chunk)
    requires SelfApart(a) && ClearOf(a, c) && Chunks(r) == [c] + Chunks(a)
    ensures SelfApart(r)
  {
    var xs, ys := Chunks(a), Chunks(r);
    hide Chunks, ChunksApart;
    forall j, k | 0 <= j < k < |ys|
      ensures ChunksApart(ys[j], ys[k])
    {
      assert ys[k] == xs[k - 1];
      assert j > 0 ==> ys[j] == xs[j - 1];
    }
  }

  lemma GrowKeepsAllocs(a: Arena, base: nat)
    requires AllocsOk(a) && a.offset <= a.chunk.capacity
    ensures AllocsOk(Grow(a, base))
  {
    hide Multiple;
    var r := Grow(a, base);
    forall k | 0 <= k < |a.allocs|
      ensures Placed(r, a.allocs[k])
    {
      assert Placed(a, a.allocs[k]);
      var j: nat :| InChunk(a, a.allocs[k], j);
      assert j > 0 ==> r.retired[j] == a.retired[j - 1];
      assert InChunk(r, a.allocs[k], j + 1);
    }
  }

  lemma GrowKeepsGrowth(a: Arena, base: nat)
    requires GrowthOk(a) && NewCapacity(a) > a.chunk.capacity
    ensures GrowthOk(Grow(a, base))
  {
    SumToCons(a.chunk, a.retired, |a.retired|, ChunkCapacity);
  }

  /** An arena of the sizes fixed at start grows at most four times in its life, and its chunks
      together stay below three times the maximum. */
  lemma GrowthBound(a: Arena)
    requires GrowthOk(a) && MIN_SIZE <= a.initial && a.maxCapacity <= MAX_SIZE
    ensures a.growths <= 4
    ensures a.chunk.capacity + Sum(a.retired, ChunkCapacity) < 3 * a.maxCapacity
  {
    if a.growths > 4 {
      DoubledGrows(a.initial, 4, a.growths - 1);
      DoubledFour(a.initial);
    }
  }

  lemma DoubledFour(n: nat)
    ensures Doubled(n, 4) == 16 * n
  {
    assert Doubled(n, 1) == 2 * n;
    assert Doubled(n, 2) == 4 * n;
    assert Doubled(n, 3) == 8 * n;
  }

  // ----- reset

  /** Dropping the first element of a sum and adding one at the end. */
  lemma {:induction false} SumToTail(xs: seq<nat>, n: nat)
    requires 0 < n <= |xs|
    ensures SumTo(xs, n, Entry) == xs[0] + SumTo(xs[1..], n - 1, Entry)
  {
    if n > 1 {
      SumToTail(xs, n - 1);
    } else {
      assert SumTo(xs, 0, Entry) == 0 && SumTo(xs[1..], 0, Entry) == 0;
    }
  }

  lemma RecentAppend(xs: seq<nat>, x: nat)
    ensures RecentSum(xs + [x]) == RecentSum(xs) + x - if |xs| < WINDOW then 0 else xs[|xs| - WINDOW]
  {
    var n := |xs|;
    if n < WINDOW {
      SumAppend<nat>(xs, x, Entry);
    } else {
      var last := xs[n - WINDOW..];
      SumAppend<nat>(last, x, Entry);
      SumToTail(last + [x], WINDOW + 1);
      assert (last + [x])[1..] == (xs + [x])[n + 1 - WINDOW..];
      assert n == WINDOW ==> last == xs;
    }
  }

  lemma NextSlot(n: nat)
    ensures (n % WINDOW + 1) % WINDOW == (n + 1) % WINDOW
  {
  }

  lemma SlotsDiffer(m: nat, n: nat)
    requires m < n < m + WINDOW
    ensures m % WINDOW != n % WINDOW
  {
  }

  lemma FullTurn(n: nat)
    requires n >= WINDOW
    ensures (n - WINDOW) % WINDOW == n % WINDOW
  {
  }

  lemma LeavingEntry(a: Arena)
    requires HistoryOk(a)
    ensures a.historyIndex < WINDOW
    ensures a.history[a.historyIndex] == if |a.finished| < WINDOW then 0 else a.finished[|a.finished| - WINDOW]
  {
    var n := |a.finished|;
    if n >= WINDOW {
      FullTurn(n);
      assert a.history[(n - WINDOW) % WINDOW] == a.finished[n - WINDOW];
    }
  }

  /** The entries written before stay where they are, except the one that leaves. */
  lemma OlderEntry(a: Arena, m: nat)
    requires HistoryOk(a) && m < |a.finished| < m + WINDOW
    ensures m % WINDOW != a.historyIndex && a.history[m % WINDOW] == a.finished[m]
  {
    SlotsDiffer(m, |a.finished|);
    hide RecentSum;
  }

  lemma AveragedFields(a: Arena)
    requires a.historyIndex < |a.history| && a.usageSum >= a.history[a.historyIndex]
    ensures var x, r := a.retiredBytes + a.offset, Averaged(a);
            && r.history == a.history[a.historyIndex := x] && r.finished == a.finished + [x]
            && r.historyIndex == (a.historyIndex + 1) % WINDOW
            && r.usageSum == a.usageSum - a.history[a.historyIndex] + x
  {
  }

  lemma AveragedKeepsHistory(a: Arena)
    requires HistoryOk(a) && a.historyIndex < WINDOW && a.usageSum >= a.history[a.historyIndex]
    ensures HistoryOk(Averaged(a))
  {
    var n, x := |a.finished|, a.retiredBytes + a.offset;
    LeavingEntry(a);
    RecentAppend(a.finished, x);
    NextSlot(n);
    AveragedFields(a);
    hide RecentSum, Averaged;
    var r := Averaged(a);
    forall m: nat | m <= n && n + 1 <= m + WINDOW
      ensures r.history[m % WINDOW] == r.finished[m]
    {
      if m < n {
        OlderEntry(a, m);
      }
    }
    forall i | n + 1 <= i < WINDOW
      ensures r.history[i] == 0
    {
      assert n % WINDOW == n;
    }
  }

  lemma ResetKeepsArena(a: Arena)
    requires ArenaOk(a) && a.usageSum >= a.history[a.historyIndex]
    ensures ArenaOk(Cleared(Averaged(a))) && Chunks(Cleared(Averaged(a))) == [a.chunk]
  {
    AveragedKeepsHistory(a);
    SumToUpdate<nat>(a.history, WINDOW, a.historyIndex, a.retiredBytes + a.offset, Entry);
    hide HistoryOk, RecentSum;
    HistoryOnly(Averaged(a), Cleared(Averaged(a)));
  }

  lemma HistoryOnly(a: Arena, r: Arena)
    requires HistoryOk(a) && r.history == a.history && r.historyIndex == a.historyIndex
    requires r.usageSum == a.usageSum && r.finished == a.finished
    ensures HistoryOk(r)
  {
  }

  // ----- the system

  lemma SeparateSymmetric(a: Arena, b: Arena)
    requires Separate(a, b)
    ensures Separate(b, a)
  {
    forall j | 0 <= j < |Chunks(b)|
      ensures ClearOf(a, Chunks(b)[j])
    {
      forall k | 0 <= k < |Chunks(a)|
        ensures ChunksApart(Chunks(b)[j], Chunks(a)[k])
      {
        assert ClearOf(b, Chunks(a)[k]);
      }
    }
  }

  /** Replacing arena i by one that is apart from the others keeps the invariant. */
  lemma ReplaceKeepsInv(s: System, i: nat, a: Arena, frame: nat)
    requires Inv(s) && i < ARENA_COUNT && ArenaOk(a)
    requires forall j :: 0 <= j < ARENA_COUNT && j != i ==> Separate(a, s.arenas[j])
    ensures Inv(System(s.arenas[i := a], frame))
  {
    hide ArenaOk;
    forall j | 0 <= j < ARENA_COUNT && j != i
      ensures Separate(s.arenas[j], a)
    {
      SeparateSymmetric(a, s.arenas[j]);
    }
  }

  lemma SameChunksSeparate(a: Arena, a': Arena, b: Arena)
    requires Separate(a, b) && Chunks(a') == Chunks(a)
    ensures Separate(a', b)
  {
  }

  lemma MoreChunksSeparate(a: Arena, a': Arena, c: Chunk, b: Arena)
    requires Separate(a, b) && ClearOf(b, c) && Chunks(a') == [c] + Chunks(a)
    ensures Separate(a', b)
  {
    forall j | 0 <= j < |Chunks(a')|
      ensures ClearOf(b, Chunks(a')[j])
    {
      assert j > 0 ==> Chunks(a')[j] == Chunks(a)[j - 1];
    }
  }

  lemma AllocKeepsInv(s: System, size: nat, offered: Option<nat>)
    requires Inv(s)
    ensures Inv(Alloc(s, size, offered).0)
  {
    var n, i := Round16(size), ArenaIndex(s.frame);
    var a := s.arenas[i];
    assert ArenaOk(a);
    MultipleMeansDivisible(ALIGNMENT, n);
    hide ArenaOk, Separate, Bump, Grow, Multiple;
    if a.offset + n <= a.chunk.capacity {
      BumpKeepsArena(a, n);
      forall j | 0 <= j < ARENA_COUNT && j != i
        ensures Separate(Bump(a, n), s.arenas[j])
      {
        SameChunksSeparate(a, Bump(a, n), s.arenas[j]);
      }
      ReplaceKeepsInv(s, i, Bump(a, n), s.frame);
    } else if NewCapacity(a) > a.chunk.capacity && offered.Some? && Mappable(s, Chunk(offered.value, NewCapacity(a))) {
      GrowAndBump(s, i, n, offered.value);
    }
  }

  lemma GrowAndBump(s: System, i: nat, n: nat, base: nat)
    requires Inv(s) && i < ARENA_COUNT && Multiple(ALIGNMENT, n)
    requires NewCapacity(s.arenas[i]) > s.arenas[i].chunk.capacity
    requires Mappable(s, Chunk(base, NewCapacity(s.arenas[i])))
    ensures var g := Grow(s.arenas[i], base);
            && Inv(s.(arenas := s.arenas[i := g]))
            && (n <= g.chunk.capacity ==> Inv(s.(arenas := s.arenas[i := Bump(g, n)])))
  {
    var a := s.arenas[i];
    var c := Chunk(base, NewCapacity(a));
    assert ArenaOk(a);
    GrowKeepsArena(a, base);
    var g := Grow(a, base);
    hide ArenaOk, Separate, Multiple;
    forall j | 0 <= j < ARENA_COUNT && j != i
      ensures Separate(g, s.arenas[j])
    {
      MoreChunksSeparate(a, g, c, s.arenas[j]);
    }
    ReplaceKeepsInv(s, i, g, s.frame);
    if n <= g.chunk.capacity {
      BumpKeepsArena(g, n);
      forall j | 0 <= j < ARENA_COUNT && j != i
        ensures Separate(Bump(g, n), s.arenas[j])
      {
        SameChunksSeparate(g, Bump(g, n), s.arenas[j]);
      }
      ReplaceKeepsInv(s, i, Bump(g, n), s.frame);
    }
  }

  /** What a reset relies on: the ring position is in range and the sum covers its entry. */
  lemma ResetReady(s: System, i: nat)
    requires Inv(s) && i < ARENA_COUNT
    ensures var a := s.arenas[i];
            |a.history| == WINDOW && a.historyIndex < WINDOW && a.usageSum >= a.history[a.historyIndex]
  {
    var a := s.arenas[i];
    assert ArenaOk(a);
    HistoryEntryBelowSum(a.history, WINDOW, a.historyIndex);
  }

  lemma ResetKeepsInv(s: System)
    requires Inv(s)
    ensures Inv(Reset(s))
  {
    var i := ArenaIndex(s.frame + 1);
    var a := s.arenas[i];
    ResetReady(s, i);
    assert ArenaOk(a);
    hide ArenaOk, Separate, Averaged, Cleared, Chunks;
    ResetKeepsArena(a);
    var r := Cleared(Averaged(a));
    forall j | 0 <= j < ARENA_COUNT && j != i
      ensures Separate(r, s.arenas[j])
    {
      OneChunkSeparate(a, r, s.arenas[j]);
    }
    ReplaceKeepsInv(s, i, r, s.frame + 1);
  }

  lemma OneChunkSeparate(a: Arena, r: Arena, b: Arena)
    requires Separate(a, b) && Chunks(r) == [a.chunk]
    ensures Separate(r, b)
  {
    assert Chunks(r)[0] == Chunks(a)[0];
  }

  lemma StartInv(size: nat, max: nat, b0: nat, b1: nat, b2: nat)
    requires 0 < size <= max && BasesOk(size, b0, b1, b2)
    ensures Inv(Start(size, max, b0, b1, b2))
  {
    FreshOk(b0, size, max);
    FreshOk(b1, size, max);
    FreshOk(b2, size, max);
    hide ArenaOk, Fresh, Multiple, Inv;
    var a0, a1, a2 := Fresh(b0, size, max), Fresh(b1, size, max), Fresh(b2, size, max);
    OneEach(a0, a1, Chunk(b0, size), Chunk(b1, size));
    OneEach(a0, a2, Chunk(b0, size), Chunk(b2, size));
    OneEach(a1, a2, Chunk(b1, size), Chunk(b2, size));
    ThreeArenas(a0, a1, a2);
  }

  lemma OneEach(a: Arena, b: Arena, c: Chunk, d: Chunk)
    requires Chunks(a) == [c] && Chunks(b) == [d] && ChunksApart(c, d)
    ensures Separate(a, b)
  {
  }

  lemma ThreeArenas(a0: Arena, a1: Arena, a2: Arena)
    requires ArenaOk(a0) && ArenaOk(a1) && ArenaOk(a2)
    requires Separate(a0, a1) && Separate(a0, a2) && Separate(a1, a2)
    ensures Inv(System([a0, a1, a2], 0))
  {
    hide ArenaOk;
    SeparateSymmetric(a0, a1);
    SeparateSymmetric(a0, a2);
    SeparateSymmetric(a1, a2);
    hide Separate;
  }

  lemma FreshOk(base: nat, size: nat, max: nat)
    requires 0 < size <= max && base > 0 && Multiple(ALIGNMENT, base)
    ensures ArenaOk(Fresh(base, size, max)) && Chunks(Fresh(base, size, max)) == [Chunk(base, size)]
  {
    ZeroSum(seq(WINDOW, _ => 0), WINDOW);
  }

  lemma {:induction false} ZeroSum(xs: seq<nat>, n: nat)
    requires n <= |xs| && forall k :: 0 <= k < |xs| ==> xs[k] == 0
    ensures SumTo(xs, n, Entry) == 0
  {
    if n != 0 {
      ZeroSum(xs, n - 1);
    }
  }

  // ----- theorems

  /** Ranges handed out and not yet reset never meet, within an arena and across arenas. */
  lemma AllocationsDisjoint(s: System, i: nat, j: nat, k: nat, l: nat)
    requires Inv(s) && i < ARENA_COUNT && k < ARENA_COUNT
    requires j < |s.arenas[i].allocs| && l < |s.arenas[k].allocs| && !(i == k && j == l)
    ensures RangesApart(s.arenas[i].allocs[j], s.arenas[k].allocs[l])
  {
    var a, b := s.arenas[i], s.arenas[k];
    assert ArenaOk(a) && ArenaOk(b);
    if i != k {
      assert Placed(a, a.allocs[j]) && Placed(b, b.allocs[l]);
      var p := HomeChunk(a, a.allocs[j]);
      var q := HomeChunk(b, b.allocs[l]);
      assert Separate(a, b);
      assert ClearOf(b, Chunks(a)[p]);
      assert ChunksApart(Chunks(a)[p], Chunks(b)[q]);
    }
  }

  lemma HomeChunk(a: Arena, r: Range) returns (k: nat)
    requires Placed(a, r) && a.offset <= a.chunk.capacity
    ensures k < |Chunks(a)| && Chunks(a)[k].base <= r.addr && r.End() <= Chunks(a)[k].End()
  {
    k :| InChunk(a, r, k);
  }

  /** Every byte of a live range is in mapped memory that the pointer test recognises, and
      the range is aligned. */
  lemma LiveIsRecognised(s: System, i: nat, j: nat, p: nat)
    requires Inv(s) && i < ARENA_COUNT && j < |s.arenas[i].allocs|
    requires s.arenas[i].allocs[j].addr <= p < s.arenas[i].allocs[j].End()
    ensures IsFramePointer(s, p) && s.arenas[i].allocs[j].addr % ALIGNMENT == 0
  {
    var a := s.arenas[i];
    assert ArenaOk(a);
    assert Placed(a, a.allocs[j]);
    MultipleMeansDivisible(ALIGNMENT, a.allocs[j].addr);
    var k := HomeChunk(a, a.allocs[j]);
    assert Chunks(a)[k].base > 0;
    assert Contains(a, p);
  }

  /** The average kept by the running sum is that of the bytes in use at the arena's last 60
      resets, this one included; missing ones count as zero. */
  lemma AverageIsExact(s: System)
    requires Inv(s)
    ensures var i := ArenaIndex(s.frame + 1);
            var a, r := s.arenas[i], Reset(s).arenas[i];
            && r.finished == a.finished + [Sum(a.allocs, RangeSize)]
            && r.rollingAverage == RecentSum(r.finished) / WINDOW
  {
    hide Inv, Reset, RecentSum, Averaged, Cleared;
    var i := ArenaIndex(s.frame + 1);
    AllocShape(s);
    ResetKeepsInv(s);
    ResetReady(s, i);
    BooksOf(s, i);
    BooksOf(Reset(s), i);
    ResetArena(s);
    AverageFields(s.arenas[i]);
  }

  lemma ResetArena(s: System)
    requires Inv(s)
    ensures var i := ArenaIndex(s.frame + 1);
            && |s.arenas| == |Reset(s).arenas| == ARENA_COUNT
            && s.arenas[i].historyIndex < |s.arenas[i].history|
            && s.arenas[i].usageSum >= s.arenas[i].history[s.arenas[i].historyIndex]
            && Reset(s).arenas[i] == Cleared(Averaged(s.arenas[i]))
  {
    ResetReady(s, ArenaIndex(s.frame + 1));
    hide ArenaOk, Separate, Averaged, Cleared;
  }

  lemma AverageFields(a: Arena)
    requires a.historyIndex < |a.history| && a.usageSum >= a.history[a.historyIndex]
    ensures var r := Cleared(Averaged(a));
            r.finished == a.finished + [a.retiredBytes + a.offset] && r.rollingAverage == r.usageSum / WINDOW
  {
  }

  lemma BooksOf(s: System, i: nat)
    requires Inv(s) && i < ARENA_COUNT
    ensures var a := s.arenas[i];
            a.retiredBytes + a.offset == Sum(a.allocs, RangeSize) && a.usageSum == RecentSum(a.finished)
  {
    assert ArenaOk(s.arenas[i]);
    hide SelfApart, AllocsOk, GrowthOk, RecentSum, Separate;
  }

  datatype Op = OpAlloc(size: nat, offered: Option<nat>) | OpReset

  function Step(s: System, op: Op): (r: System)
    requires Inv(s)
    ensures Inv(r)
  {
    match op
    case OpAlloc(size, offered) =>
      AllocKeepsInv(s, size, offered);
      Alloc(s, size, offered).0
    case OpReset =>
      ResetKeepsInv(s);
      Reset(s)
  }

  function Exec(s: System, ops: seq<Op>): (r: System)
    requires Inv(s)
    ensures Inv(r)
    decreases |ops|
  {
    if ops == [] then s else Exec(Step(s, ops[0]), ops[1..])
  }

  function Resets(ops: seq<Op>): nat {
    if ops == [] then 0 else (if ops[0].OpReset? then 1 else 0) + Resets(ops[1..])
  }

  /** An allocation appends to the arena of the current frame and to no other. */
  lemma AllocOnlyAppends(s: System, size: nat, offered: Option<nat>, i: nat)
    requires Inv(s) && i < ARENA_COUNT
    ensures var r := Alloc(s, size, offered).0;
            r.frame == s.frame && s.arenas[i].allocs <= r.arenas[i].allocs
  {
    AllocShape(s);
    hide Inv, Alloc;
    AllocReturns(s, size, offered);
  }

  lemma ResetOnlyClears(s: System, i: nat)
    requires Inv(s) && i < ARENA_COUNT
    ensures var r := Reset(s);
            r.frame == s.frame + 1
            && r.arenas[i].allocs == if i == ArenaIndex(s.frame + 1) then [] else s.arenas[i].allocs
  {
  }

  lemma FrameAdvances(f: nat)
    ensures (f % FRAME_RANGE + 1) % FRAME_RANGE == (f + 1) % FRAME_RANGE
  {
  }

  /** The next two frames use other arenas, unless the frame counter wraps right now. */
  lemma NextFramesElsewhere(f: nat)
    ensures (ArenaIndex(f + 1) != ArenaIndex(f) && ArenaIndex(f + 2) != ArenaIndex(f))
       <==> f % FRAME_RANGE != FRAME_RANGE - 1
  {
    var w := f % FRAME_RANGE;
    assert (f + 1) % FRAME_RANGE == if w == FRAME_RANGE - 1 then 0 else w + 1;
    assert (f + 2) % FRAME_RANGE == if w >= FRAME_RANGE - 2 then w + 2 - FRAME_RANGE else w + 2;
  }

  /** Memory of frame f survives every run that makes the second reset at most. */
  lemma {:induction false} FrameSurvives(s: System, ops: seq<Op>, f: nat)
    requires Inv(s) && f % FRAME_RANGE != FRAME_RANGE - 1
    requires f <= s.frame && s.frame + Resets(ops) <= f + 2
    ensures s.arenas[ArenaIndex(f)].allocs <= Exec(s, ops).arenas[ArenaIndex(f)].allocs
    decreases |ops|
  {
    if ops != [] {
      var i := ArenaIndex(f);
      StepKeepsFrame(s, ops[0], f);
      hide Step, ArenaOk, Separate;
      FrameSurvives(Step(s, ops[0]), ops[1..], f);
    }
  }

  lemma StepKeepsFrame(s: System, op: Op, f: nat)
    requires Inv(s) && f % FRAME_RANGE != FRAME_RANGE - 1
    requires f <= s.frame && (op.OpReset? ==> s.frame <= f + 1)
    ensures Step(s, op).frame == s.frame + if op.OpReset? then 1 else 0
    ensures s.arenas[ArenaIndex(f)].allocs <= Step(s, op).arenas[ArenaIndex(f)].allocs
  {
    hide ArenaOk, Separate, Alloc;
    if op.OpReset? {
      NextFramesElsewhere(f);
      ResetOnlyClears(s, ArenaIndex(f));
    } else {
      AllocOnlyAppends(s, op.size, op.offered, ArenaIndex(f));
    }
  }

  ghost predicate SurvivesTwoResets(s: System)
    requires Inv(s)
  {
    forall ops: seq<Op> :: Resets(ops) <= 2 ==>
      s.arenas[ArenaIndex(s.frame)].allocs <= Exec(s, ops).arenas[ArenaIndex(s.frame)].allocs
  }

  /** Everything allocated in the current frame stays allocated through any run with at most
      two resets, exactly when the 32-bit frame counter does not wrap at the next reset (or
      nothing is allocated in the frame): 2^32 is not a multiple of three, so at the wrap the
      same arena is reset at once. */
  lemma LifetimeIff(s: System)
    requires Inv(s)
    ensures SurvivesTwoResets(s)
       <==> s.frame % FRAME_RANGE != FRAME_RANGE - 1 || s.arenas[ArenaIndex(s.frame)].allocs == []
  {
    var i := ArenaIndex(s.frame);
    if s.frame % FRAME_RANGE != FRAME_RANGE - 1 {
      forall ops: seq<Op> | Resets(ops) <= 2
        ensures s.arenas[i].allocs <= Exec(s, ops).arenas[i].allocs
      {
        FrameSurvives(s, ops, s.frame);
      }
    } else {
      WrapReuses(s);
    }
  }

  lemma WrapReuses(s: System)
    requires Inv(s) && s.frame % FRAME_RANGE == FRAME_RANGE - 1
    ensures Resets([OpReset]) == 1
    ensures Exec(s, [OpReset]).arenas[ArenaIndex(s.frame)].allocs == []
  {
    hide ArenaOk, Separate, Exec, Resets;
    assert (s.frame + 1) % FRAME_RANGE == 0;
    ResetOnlyClears(s, ArenaIndex(s.frame));
    ExecOne(s, OpReset);
  }

  lemma ExecOne(s: System, op: Op)
    requires Inv(s)
    ensures Exec(s, [op]) == Step(s, op) && Resets([op]) == if op.OpReset? then 1 else 0
  {
    hide Inv, Step;
    assert [op][1..] == [];
    assert Exec(Step(s, op), []) == Step(s, op);
    assert Resets([]) == 0;
  }

  // ----- how long a run stays safe

  lemma {:induction false} RunFrame(s: System, ops: seq<Op>)
    requires Inv(s)
    ensures Exec(s, ops).frame == s.frame + Resets(ops)
    decreases |ops|
  {
    if ops != [] {
      StepFrame(s, ops[0]);
      hide Inv, Step;
      RunFrame(Step(s, ops[0]), ops[1..]);
    }
  }

  lemma StepFrame(s: System, op: Op)
    requires Inv(s)
    ensures Step(s, op).frame == s.frame + if op.OpReset? then 1 else 0
  {
    hide ArenaOk, Separate;
  }

  /** Nothing is allocated, and every arena has room for a smallest allocation. */
  ghost predicate Quiet(s: System) {
    forall i :: 0 <= i < |s.arenas| ==>
      s.arenas[i].offset == 0 && s.arenas[i].allocs == [] && s.arenas[i].chunk.capacity >= ALIGNMENT
  }

  lemma ResetKeepsQuiet(s: System)
    requires Inv(s) && Quiet(s)
    ensures Quiet(Step(s, OpReset))
  {
    hide ArenaOk, Separate;
  }

  function ResetRun(n: nat): seq<Op> {
    if n == 0 then [] else [OpReset] + ResetRun(n - 1)
  }

  lemma {:induction false} ResetsOf(n: nat)
    ensures Resets(ResetRun(n)) == n
  {
    if n != 0 {
      ResetsOf(n - 1);
      assert ResetRun(n)[0] == OpReset && ResetRun(n)[1..] == ResetRun(n - 1);
    }
  }

  lemma {:induction false} RunOfResets(s: System, n: nat)
    requires Inv(s) && Quiet(s)
    ensures Quiet(Exec(s, ResetRun(n)))
    decreases n
  {
    hide Inv, Step, Quiet;
    if n != 0 {
      ResetKeepsQuiet(s);
      assert ResetRun(n)[0] == OpReset && ResetRun(n)[1..] == ResetRun(n - 1);
      RunOfResets(Step(s, OpReset), n - 1);
    }
  }

  lemma {:induction false} ExecAppend(s: System, ops: seq<Op>, op: Op)
    requires Inv(s)
    ensures Exec(s, ops + [op]) == Step(Exec(s, ops), op)
    ensures Resets(ops + [op]) == Resets(ops) + if op.OpReset? then 1 else 0
    decreases |ops|
  {
    hide Inv, Step;
    if ops == [] {
      assert ops + [op] == [op];
      ExecOne(s, op);
    } else {
      assert (ops + [op])[0] == ops[0] && (ops + [op])[1..] == ops[1..] + [op];
      ExecAppend(Step(s, ops[0]), ops[1..], op);
    }
  }

  lemma QuietAlloc(s: System)
    requires Inv(s) && Quiet(s)
    ensures var r := Step(s, OpAlloc(ALIGNMENT, None));
            r.frame == s.frame && r.arenas[ArenaIndex(r.frame)].allocs != []
  {
    hide ArenaOk, Separate;
  }

  /** 2^32 - 1 frames without allocations and then one of 16 bytes. */
  function WrapRun(n: nat): seq<Op> {
    ResetRun(n) + [OpAlloc(ALIGNMENT, None)]
  }

  /** The next reset takes memory away that was allocated in the frame before it. */
  lemma WrapLosesMemory(s: System, n: nat)
    requires Inv(s) && Quiet(s) && s.frame == 0 && n == FRAME_RANGE - 1
    ensures Resets(WrapRun(n)) == n && !SurvivesTwoResets(Exec(s, WrapRun(n)))
  {
    hide Inv, Exec, Step, SurvivesTwoResets, ResetRun;
    var p, op := Exec(s, ResetRun(n)), OpAlloc(ALIGNMENT, None);
    RunOfResets(s, n);
    ResetsOf(n);
    RunFrame(s, ResetRun(n));
    QuietAlloc(p);
    ExecAppend(s, ResetRun(n), op);
    LifetimeIff(Step(p, op));
  }

  lemma QuietLifetimeIff(s: System, n: nat)
    requires Inv(s) && Quiet(s) && s.frame == 0
    ensures (forall ops: seq<Op> :: Resets(ops) <= n ==> SurvivesTwoResets(Exec(s, ops)))
       <==> n < FRAME_RANGE - 1
  {
    hide Inv, Exec, SurvivesTwoResets, Resets, WrapRun;
    if n < FRAME_RANGE - 1 {
      forall ops: seq<Op> | Resets(ops) <= n
        ensures SurvivesTwoResets(Exec(s, ops))
      {
        RunFrame(s, ops);
        LifetimeIff(Exec(s, ops));
      }
    } else {
      WrapLosesMemory(s, FRAME_RANGE - 1);
    }
  }

  /** Over all runs of the program with up to n resets, whatever is allocated in a frame stays
      allocated through the next two resets, if and only if n is less than 2^32 - 1. */
  lemma LifetimeOverRunsIff(configured: nat, configuredMax: nat, b0: nat, b1: nat, b2: nat, n: nat)
    requires BasesOk(ArenaSize(configured), b0, b1, b2)
    ensures var size := ArenaSize(configured);
            var s := Start(size, MaxSize(configuredMax, size), b0, b1, b2);
            && Inv(s)
            && ((forall ops: seq<Op> :: Resets(ops) <= n ==> SurvivesTwoResets(Exec(s, ops)))
                <==> n < FRAME_RANGE - 1)
  {
    var size := ArenaSize(configured);
    var s := Start(size, MaxSize(configuredMax, size), b0, b1, b2);
    assert Quiet(s);
    hide Inv, Exec, SurvivesTwoResets, Resets, Start, Quiet;
    StartInv(size, MaxSize(configuredMax, size), b0, b1, b2);
    QuietLifetimeIff(s, n);
  }

  /** The third reset takes the memory of a frame back, except for the last three frame
      numbers before the wrap: then it resets another arena and leaves this one as it is. */
  lemma ThirdResetReclaims(s: System, f: nat)
    requires Inv(s) && s.frame == f + 2
    ensures var a, r := s.arenas[ArenaIndex(f)], Reset(s).arenas[ArenaIndex(f)];
            if f % FRAME_RANGE < FRAME_RANGE - 3 then r.allocs == [] && r.offset == 0 && r.retired == [] && r.chunk == a.chunk
            else r == a
  {
    hide ArenaOk, Separate;
    ThirdFrameIff(f);
  }

  /** The third next frame uses the same arena, except from the last three frame numbers
      before the wrap. */
  lemma ThirdFrameIff(f: nat)
    ensures ArenaIndex(f + 3) == ArenaIndex(f) <==> f % FRAME_RANGE < FRAME_RANGE - 3
  {
    var w := f % FRAME_RANGE;
    assert (f + 3) % FRAME_RANGE == if w < FRAME_RANGE - 3 then w + 3 else w + 3 - FRAME_RANGE;
  }

  ghost predicate SizesFixed(s: System, size: nat, max: nat) {
    forall i :: 0 <= i < |s.arenas| ==> s.arenas[i].initial == size && s.arenas[i].maxCapacity == max
  }

  lemma StepKeepsSizes(s: System, op: Op, size: nat, max: nat)
    requires Inv(s) && SizesFixed(s, size, max)
    ensures SizesFixed(Step(s, op), size, max)
  {
    hide ArenaOk, Separate;
  }

  /** Over every run from the configured start, no arena grows more than four times, and what
      it keeps mapped stays below three times its maximum. */
  lemma {:induction false} RunGrowthBound(s: System, ops: seq<Op>, size: nat, max: nat, i: nat)
    requires Inv(s) && SizesFixed(s, size, max) && MIN_SIZE <= size && max <= MAX_SIZE && i < ARENA_COUNT
    ensures var a := Exec(s, ops).arenas[i];
            && a.growths <= 4
            && a.chunk.capacity + Sum(a.retired, ChunkCapacity) < 3 * max
            && a.chunk.capacity <= max
    decreases |ops|
  {
    if ops == [] {
      assert ArenaOk(s.arenas[i]);
      GrowthBound(s.arenas[i]);
    } else {
      StepKeepsSizes(s, ops[0], size, max);
      hide Step, ArenaOk, Separate, SizesFixed;
      RunGrowthBound(Step(s, ops[0]), ops[1..], size, max, i);
    }
  }

  /** The configured start is one whose sizes are fixed, so the bound holds of the program. */
  lemma ProgramGrowthBound(configured: nat, configuredMax: nat, b0: nat, b1: nat, b2: nat, ops: seq<Op>, i: nat)
    requires BasesOk(ArenaSize(configured), b0, b1, b2) && i < ARENA_COUNT
    ensures var size := ArenaSize(configured);
            var max := MaxSize(configuredMax, size);
            && Inv(Start(size, max, b0, b1, b2))
            && var a := Exec(Start(size, max, b0, b1, b2), ops).arenas[i];
               && a.growths <= 4 && size <= a.chunk.capacity <= max && a.initial == size
               && a.chunk.capacity + Sum(a.retired, ChunkCapacity) < 3 * max
  {
    var size := ArenaSize(configured);
    var max := MaxSize(configuredMax, size);
    var s := Start(size, max, b0, b1, b2);
    assert SizesFixed(s, size, max) && AtLeast(s, size);
    hide Inv, Start, Exec, SizesFixed, AtLeast, BasesOk;
    StartInv(size, max, b0, b1, b2);
    RunGrowthBound(s, ops, size, max, i);
    RunAtLeast(s, ops, size, max);
    ArenaOf(Exec(s, ops), size, max, i);
  }

  ghost predicate AtLeast(s: System, size: nat) {
    forall i :: 0 <= i < |s.arenas| ==> size <= s.arenas[i].chunk.capacity
  }

  lemma ArenaOf(s: System, size: nat, max: nat, i: nat)
    requires Inv(s) && SizesFixed(s, size, max) && AtLeast(s, size) && i < ARENA_COUNT
    ensures size <= s.arenas[i].chunk.capacity && s.arenas[i].initial == size
  {
  }

  lemma StepAtLeast(s: System, op: Op, size: nat)
    requires Inv(s) && AtLeast(s, size)
    ensures AtLeast(Step(s, op), size)
  {
    hide ArenaOk, Separate;
  }

  lemma {:induction false} RunAtLeast(s: System, ops: seq<Op>, size: nat, max: nat)
    requires Inv(s) && AtLeast(s, size) && SizesFixed(s, size, max)
    ensures AtLeast(Exec(s, ops), size) && SizesFixed(Exec(s, ops), size, max)
    decreases |ops|
  {
    if ops != [] {
      StepAtLeast(s, ops[0], size);
      StepKeepsSizes(s, ops[0], size, max);
      hide Inv, Step, AtLeast, SizesFixed;
      RunAtLeast(Step(s, ops[0]), ops[1..], size, max);
    }
  }

  // ----- what callers are given

  /** The chunk of the arena is too short for the request, and a larger one can be had. */
  predicate MustGrow(s: System, size: nat, offered: Option<nat>)
    requires |s.arenas| == ARENA_COUNT
  {
    var a := s.arenas[ArenaIndex(s.frame)];
    && a.offset + Round16(size) > a.chunk.capacity
    && NewCapacity(a) > a.chunk.capacity
    && offered.Some? && Mappable(s, Chunk(offered.value, NewCapacity(a)))
  }

  /** The request fits into the chunk of the arena, or into the larger one that it grows to. */
  predicate CanServe(s: System, size: nat, offered: Option<nat>)
    requires |s.arenas| == ARENA_COUNT
  {
    var a := s.arenas[ArenaIndex(s.frame)];
    || a.offset + Round16(size) <= a.chunk.capacity
    || (MustGrow(s, size, offered) && Round16(size) <= NewCapacity(a))
  }

  /** An allocation returns the start of a new range of at least the requested size in the
      arena of the frame, exactly when the request can be served; otherwise no arena hands
      out anything. The arena grows by one chunk exactly when it must, even if that does not
      help. */
  lemma AllocReturns(s: System, size: nat, offered: Option<nat>)
    requires |s.arenas| == ARENA_COUNT
    ensures var (r, p) := Alloc(s, size, offered);
            var i := ArenaIndex(s.frame);
            && r.frame == s.frame && |r.arenas| == ARENA_COUNT
            && (p.Some? <==> CanServe(s, size, offered))
            && r.arenas[i].allocs == s.arenas[i].allocs + (if p.Some? then [Range(p.value, Round16(size))] else [])
            && (forall j :: 0 <= j < ARENA_COUNT && j != i ==> r.arenas[j] == s.arenas[j])
            && (if MustGrow(s, size, offered)
                then Chunks(r.arenas[i]) == [Chunk(offered.value, NewCapacity(s.arenas[i]))] + Chunks(s.arenas[i])
                else Chunks(r.arenas[i]) == Chunks(s.arenas[i]))
  {
    hide Mappable, ClearOf, Multiple, Round16;
  }

  /** A returned range meets none that is still handed out, in any arena, and starts aligned. */
  lemma ReturnedIsNew(s: System, size: nat, offered: Option<nat>, i: nat, k: nat)
    requires Inv(s) && Alloc(s, size, offered).1.Some?
    requires i < ARENA_COUNT && k < |s.arenas[i].allocs|
    ensures var x := Alloc(s, size, offered).1.value;
            x % ALIGNMENT == 0 && RangesApart(s.arenas[i].allocs[k], Range(x, Round16(size)))
  {
    hide Inv, Alloc, ArenaOk, Round16;
    AllocShape(s);
    AllocKeepsInv(s, size, offered);
    AllocReturns(s, size, offered);
    var r, j := Alloc(s, size, offered).0, ArenaIndex(s.frame);
    var n := |s.arenas[j].allocs|;
    AllocationsDisjoint(r, i, k, j, n);
    StartsAligned(r, j, n);
  }

  lemma AllocShape(s: System)
    requires Inv(s)
    ensures |s.arenas| == ARENA_COUNT
  {
  }

  lemma StartsAligned(s: System, i: nat, k: nat)
    requires Inv(s) && i < ARENA_COUNT && k < |s.arenas[i].allocs|
    ensures s.arenas[i].allocs[k].addr % ALIGNMENT == 0
  {
    assert ArenaOk(s.arenas[i]);
    assert Placed(s.arenas[i], s.arenas[i].allocs[k]);
    MultipleMeansDivisible(ALIGNMENT, s.arenas[i].allocs[k].addr);
  }

  /** What the callers hold: per arena, the requested bytes behind every address returned to
      them since the arena's last reset. */
  function Held(held: seq<seq<Range>>, s: System, op: Op): seq<seq<Range>>
    requires Inv(s) && |held| == ARENA_COUNT
  {
    match op
    case OpAlloc(size, offered) =>
      var i := ArenaIndex(s.frame);
      (match Alloc(s, size, offered).1
       case None => held
       case Some(x) => held[i := held[i] + [Range(x, size)]])
    case OpReset => held[ArenaIndex(s.frame + 1) := []]
  }

  function HeldAfter(held: seq<seq<Range>>, s: System, ops: seq<Op>): (r: seq<seq<Range>>)
    requires Inv(s) && |held| == ARENA_COUNT
    ensures |r| == ARENA_COUNT
    decreases |ops|
  {
    if ops == [] then held else HeldAfter(Held(held, s, ops[0]), Step(s, ops[0]), ops[1..])
  }

  /** Every range held is the beginning of the range recorded for it. */
  ghost predicate Backed(held: seq<seq<Range>>, s: System) {
    && |held| == |s.arenas| == ARENA_COUNT
    && forall i :: 0 <= i < ARENA_COUNT ==> BackedBy(held[i], s.arenas[i].allocs)
  }

  ghost predicate BackedBy(hs: seq<Range>, rs: seq<Range>) {
    |hs| == |rs| && forall k :: 0 <= k < |hs| ==> hs[k].addr == rs[k].addr && hs[k].size <= rs[k].size
  }

  lemma HeldStaysBacked(held: seq<seq<Range>>, s: System, op: Op)
    requires Inv(s) && Backed(held, s)
    ensures Backed(Held(held, s, op), Step(s, op))
  {
    hide ArenaOk, Separate, Alloc;
    match op
    case OpAlloc(size, offered) => AllocReturns(s, size, offered);
    case OpReset =>
      forall i | 0 <= i < ARENA_COUNT
        ensures Reset(s).arenas[i].allocs == if i == ArenaIndex(s.frame + 1) then [] else s.arenas[i].allocs
      {
        ResetOnlyClears(s, i);
      }
  }

  lemma {:induction false} RunStaysBacked(held: seq<seq<Range>>, s: System, ops: seq<Op>)
    requires Inv(s) && Backed(held, s)
    ensures Backed(HeldAfter(held, s, ops), Exec(s, ops))
    decreases |ops|
  {
    if ops != [] {
      HeldStaysBacked(held, s, ops[0]);
      hide Inv, Step, Held, Backed;
      HeldLength(held, s, ops[0]);
      RunStaysBacked(Held(held, s, ops[0]), Step(s, ops[0]), ops[1..]);
    }
  }

  lemma HeldLength(held: seq<seq<Range>>, s: System, op: Op)
    requires Inv(s) && |held| == ARENA_COUNT
    ensures |Held(held, s, op)| == ARENA_COUNT
  {
  }

  /** Over every run of the program: what callers hold, in whatever arenas, never overlaps,
      starts aligned, and every byte of it is recognised by the pointer test. */
  lemma CallersNeverShare(s: System, ops: seq<Op>, i: nat, k: nat, j: nat, l: nat, p: nat)
    requires Inv(s) && Backed([[], [], []], s) && i < ARENA_COUNT && j < ARENA_COUNT
    requires var held := HeldAfter([[], [], []], s, ops);
             k < |held[i]| && l < |held[j]| && !(i == j && k == l) && held[i][k].addr <= p < held[i][k].End()
    ensures var held := HeldAfter([[], [], []], s, ops);
            && RangesApart(held[i][k], held[j][l])
            && held[i][k].addr % ALIGNMENT == 0
            && IsFramePointer(Exec(s, ops), p)
  {
    hide Inv, Exec, HeldAfter, IsFramePointer;
    RunStaysBacked([[], [], []], s, ops);
    var r := Exec(s, ops);
    AllocationsDisjoint(r, i, k, j, l);
    StartsAligned(r, i, k);
    LiveIsRecognised(r, i, k, p);
  }

  lemma NothingHeldAtStart(size: nat, max: nat, b0: nat, b1: nat, b2: nat)
    ensures Backed([[], [], []], Start(size, max, b0, b1, b2))
  {
  }
}
