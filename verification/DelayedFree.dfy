/**
 * Allocation tracking and delayed reclamation, with both switched on: a freed record waits
 * in a queue and is handed to the C library at the third following frame advance.
 */
module DelayedFree {
  import opened Basics

  const DELAYED_FRAMES := 3
  const MAX_DELAYED := 10000
  /** The frame counter is a 32-bit word. */
  const FRAME_RANGE := 0x1_0000_0000

  /** `id` numbers the allocations of a run; addresses may be used again. */
  datatype Record = Record(id: nat, ptr: nat)

  /** `at` is the unbounded frame number behind the stored 32-bit one. */
  datatype Delayed = Delayed(rec: Record, frameFreed: nat, at: nat)

  /** A record given back to the C library at frame `at`; `queuedAt` when it had been queued. */
  datatype Reclaimed = Reclaimed(rec: Record, queuedAt: Option<nat>, at: nat)

  datatype State = State(
    active: seq<Record>,
    activeCount: nat,
    delayed: seq<Delayed>,
    delayedCount: nat,
    currentFrame: nat,
    totalAllocations: nat,
    totalFrees: nat,
    doubleFrees: nat,
    frame: nat,
    reclaimed: seq<Reclaimed>)

  function Start(): State {
    State([], 0, [], 0, 0, 0, 0, 0, 0, [])
  }

  // ----- operations

  predicate InUse(s: State, p: nat) {
    || (exists k :: 0 <= k < |s.active| && s.active[k].ptr == p)
    || (exists k :: 0 <= k < |s.delayed| && s.delayed[k].rec.ptr == p)
  }

  /** The C library returned p for a new allocation. */
  function Track(s: State, p: nat): State {
    s.(active := [Record(s.totalAllocations, p)] + s.active,
       activeCount := s.activeCount + 1,
       totalAllocations := s.totalAllocations + 1)
  }

  /** Position of the record of an address from k on, or the length of the list. */
  function FindFrom(active: seq<Record>, p: nat, k: nat): (i: nat)
    requires k <= |active|
    ensures k <= i <= |active|
    ensures i < |active| ==> active[i].ptr == p
    ensures forall j :: k <= j < i ==> active[j].ptr != p
    decreases |active| - k
  {
    if k == |active| || active[k].ptr == p then k else FindFrom(active, p, k + 1)
  }

  /** Free an address. `canariesOk` is the verdict of the canary check, `nodeOk` whether the C
      library grants a queue node. */
  function FreePtr(s: State, p: nat, canariesOk: bool, nodeOk: bool): State
    requires s.activeCount == |s.active|
  {
    if p == 0 || !canariesOk then s
    else
      var i := FindFrom(s.active, p, 0);
      if i == |s.active| then s.(doubleFrees := s.doubleFrees + 1)
      else
        var rec := s.active[i];
        var u := s.(active := s.active[..i] + s.active[i + 1..],
                    activeCount := s.activeCount - 1,
                    totalFrees := s.totalFrees + 1);
        if s.delayedCount < MAX_DELAYED && nodeOk then
          u.(delayed := [Delayed(rec, s.currentFrame, s.frame)] + s.delayed,
             delayedCount := s.delayedCount + 1)
        else u.(reclaimed := s.reclaimed + [Reclaimed(rec, None, s.frame)])
  }

  /** Unsigned 32-bit subtraction. */
  function Elapsed(now: nat, then_: nat): nat {
    (now - then_) % FRAME_RANGE
  }

  predicate Expired(d: Delayed, now: nat) {
    Elapsed(now, d.frameFreed) >= DELAYED_FRAMES
  }

  function Kept(ds: seq<Delayed>, now: nat): seq<Delayed> {
    if ds == [] then []
    else if Expired(ds[0], now) then Kept(ds[1..], now)
    else [ds[0]] + Kept(ds[1..], now)
  }

  function Gone(ds: seq<Delayed>, now: nat, frame: nat): seq<Reclaimed> {
    if ds == [] then []
    else if Expired(ds[0], now) then [Reclaimed(ds[0].rec, Some(ds[0].at), frame)] + Gone(ds[1..], now, frame)
    else Gone(ds[1..], now, frame)
  }

  function Advance(s: State): State {
    var now := (s.currentFrame + 1) % FRAME_RANGE;
    s.(currentFrame := now,
       frame := s.frame + 1,
       delayed := Kept(s.delayed, now),
       delayedCount := |Kept(s.delayed, now)|,
       reclaimed := s.reclaimed + Gone(s.delayed, now, s.frame + 1))
  }

  // ----- the invariant

  function ActiveIds(xs: seq<Record>): multiset<nat> {
    if xs == [] then multiset{} else multiset{xs[0].id} + ActiveIds(xs[1..])
  }

  function DelayedIds(ds: seq<Delayed>): multiset<nat> {
    if ds == [] then multiset{} else multiset{ds[0].rec.id} + DelayedIds(ds[1..])
  }

  function ReclaimedIds(rs: seq<Reclaimed>): multiset<nat> {
    if rs == [] then multiset{} else multiset{rs[0].rec.id} + ReclaimedIds(rs[1..])
  }

  function UpTo(n: nat): multiset<nat> {
    if n == 0 then multiset{} else UpTo(n - 1) + multiset{n - 1}
  }

  ghost predicate DelayedOk(s: State, d: Delayed) {
    d.frameFreed == d.at % FRAME_RANGE && d.at <= s.frame < d.at + DELAYED_FRAMES
  }

  ghost predicate IdsOk(s: State) {
    ActiveIds(s.active) + DelayedIds(s.delayed) + ReclaimedIds(s.reclaimed) == UpTo(s.totalAllocations)
  }

  ghost predicate PtrsOk(s: State) {
    && (forall j, k :: 0 <= j < k < |s.active| ==> s.active[j].ptr != s.active[k].ptr)
    && (forall j, k :: 0 <= j < |s.active| && 0 <= k < |s.delayed| ==> s.active[j].ptr != s.delayed[k].rec.ptr)
  }

  ghost predicate TimesOk(s: State) {
    && s.currentFrame == s.frame % FRAME_RANGE
    && (forall k :: 0 <= k < |s.delayed| ==> DelayedOk(s, s.delayed[k]))
    && (forall k :: 0 <= k < |s.reclaimed| && s.reclaimed[k].queuedAt.Some? ==>
          s.reclaimed[k].at == s.reclaimed[k].queuedAt.value + DELAYED_FRAMES)
  }

  /** Every allocation ever made is in exactly one of the three places, the counters are the
      list lengths, and every queued record that has been given back was so after three
      advances, whatever the 32-bit counter did meanwhile. */
  ghost predicate Inv(s: State) {
    && s.activeCount == |s.active| && s.delayedCount == |s.delayed| <= MAX_DELAYED
    && s.totalAllocations == s.totalFrees + |s.active|
    && IdsOk(s) && PtrsOk(s) && TimesOk(s)
  }

  lemma ActiveIdsCons(xs: seq<Record>)
    requires xs != []
    ensures ActiveIds(xs) == multiset{xs[0].id} + ActiveIds(xs[1..])
  {
  }

  lemma {:induction false} ActiveIdsRemove(xs: seq<Record>, i: nat)
    requires i < |xs|
    ensures ActiveIds(xs[..i] + xs[i + 1..]) + multiset{xs[i].id} == ActiveIds(xs)
    decreases |xs|
  {
    ActiveIdsCons(xs);
    hide ActiveIds;
    var ys := xs[..i] + xs[i + 1..];
    if i == 0 {
      assert ys == xs[1..];
    } else {
      assert ys[0] == xs[0] && ys[1..] == xs[1..][..i - 1] + xs[1..][i..];
      ActiveIdsCons(ys);
      ActiveIdsRemove(xs[1..], i - 1);
    }
  }

  lemma {:induction false} ReclaimedIdsConcat(xs: seq<Reclaimed>, ys: seq<Reclaimed>)
    ensures ReclaimedIds(xs + ys) == ReclaimedIds(xs) + ReclaimedIds(ys)
    decreases |xs|
  {
    assert xs != [] ==> ReclaimedIds(xs) == multiset{xs[0].rec.id} + ReclaimedIds(xs[1..]);
    if xs == [] {
      assert xs + ys == ys;
    } else {
      var zs := xs + ys;
      assert zs[0] == xs[0] && zs[1..] == xs[1..] + ys;
      assert ReclaimedIds(zs) == multiset{xs[0].rec.id} + ReclaimedIds(xs[1..] + ys);
      hide ReclaimedIds;
      ReclaimedIdsConcat(xs[1..], ys);
    }
  }

  /** The sweep splits the queue: nothing is lost, nothing is freed twice. */
  lemma {:induction false} SweepSplits(ds: seq<Delayed>, now: nat, frame: nat)
    ensures DelayedIds(Kept(ds, now)) + ReclaimedIds(Gone(ds, now, frame)) == DelayedIds(ds)
    ensures |Kept(ds, now)| <= |ds|
    decreases |ds|
  {
    if ds != [] {
      SweepSplits(ds[1..], now, frame);
      var g := Gone(ds[1..], now, frame);
      if Expired(ds[0], now) {
        var r := Reclaimed(ds[0].rec, Some(ds[0].at), frame);
        assert ([r] + g)[1..] == g;
      } else {
        var k := Kept(ds[1..], now);
        assert ([ds[0]] + k)[1..] == k;
      }
    }
  }

  lemma {:induction false} KeptMembers(ds: seq<Delayed>, now: nat)
    ensures forall d :: d in Kept(ds, now) <==> d in ds && !Expired(d, now)
    decreases |ds|
  {
    if ds != [] {
      KeptMembers(ds[1..], now);
    }
  }

  lemma {:induction false} GoneMembers(ds: seq<Delayed>, now: nat, frame: nat)
    ensures forall r :: r in Gone(ds, now, frame) ==>
              exists d :: d in ds && Expired(d, now) && r == Reclaimed(d.rec, Some(d.at), frame)
    ensures forall d :: d in ds && Expired(d, now) ==> Reclaimed(d.rec, Some(d.at), frame) in Gone(ds, now, frame)
    decreases |ds|
  {
    if ds != [] {
      GoneMembers(ds[1..], now, frame);
    }
  }

  /** A queued record is due at exactly the third advance, also when the counter wraps. */
  lemma DueAtThird(s: State, d: Delayed)
    requires DelayedOk(s, d)
    ensures Expired(d, (s.frame + 1) % FRAME_RANGE) <==> s.frame + 1 == d.at + DELAYED_FRAMES
  {
    var e := s.frame + 1 - d.at;
    ModDifference(s.frame + 1, d.at);
    assert e % FRAME_RANGE == e;
  }

  lemma ModDifference(a: nat, b: nat)
    requires b <= a
    ensures (a % FRAME_RANGE - b % FRAME_RANGE) % FRAME_RANGE == (a - b) % FRAME_RANGE
  {
    var m := FRAME_RANGE;
    assert a == m * (a / m) + a % m && b == m * (b / m) + b % m;
    var q := a / m - b / m;
    assert a - b == m * q + (a % m - b % m);
  }

  lemma StartInv()
    ensures Inv(Start())
  {
  }

  lemma TrackKeepsInv(s: State, p: nat)
    requires Inv(s) && !InUse(s, p)
    ensures Inv(Track(s, p))
  {
    hide IdsOk, PtrsOk, TimesOk;
    TrackKeepsIds(s, p);
    TrackKeepsPtrs(s, p);
    TimesFrame(s, Track(s, p));
  }

  lemma TrackKeepsIds(s: State, p: nat)
    requires IdsOk(s)
    ensures IdsOk(Track(s, p))
  {
    assert Track(s, p).active[1..] == s.active;
  }

  lemma TrackKeepsPtrs(s: State, p: nat)
    requires PtrsOk(s) && !InUse(s, p)
    ensures PtrsOk(Track(s, p))
  {
    var t := Track(s, p);
    assert forall j :: 0 < j < |t.active| ==> t.active[j] == s.active[j - 1];
  }

  lemma TimesFrame(s: State, t: State)
    requires TimesOk(s) && t.frame == s.frame && t.currentFrame == s.currentFrame
    requires t.delayed == s.delayed && t.reclaimed == s.reclaimed
    ensures TimesOk(t)
  {
    forall k | 0 <= k < |t.delayed|
      ensures DelayedOk(t, t.delayed[k])
    {
      assert DelayedOk(s, s.delayed[k]);
    }
  }

  lemma FreeKeepsInv(s: State, p: nat, canariesOk: bool, nodeOk: bool)
    requires Inv(s)
    ensures Inv(FreePtr(s, p, canariesOk, nodeOk))
  {
    hide IdsOk, PtrsOk, TimesOk;
    var t := FreePtr(s, p, canariesOk, nodeOk);
    var i := FindFrom(s.active, p, 0);
    FreeKeepsTimes(s, p, canariesOk, nodeOk);
    FreeKeepsIds(s, p, canariesOk, nodeOk);
    if p == 0 || !canariesOk || i == |s.active| {
      SamePtrs(s, t);
    } else {
      assert s.delayedCount < MAX_DELAYED && nodeOk ==> t.delayed[1..] == s.delayed;
      RemovalKeepsPtrs(s, t, i);
    }
  }

  lemma SamePtrs(s: State, t: State)
    requires PtrsOk(s) && t.active == s.active && t.delayed == s.delayed
    ensures PtrsOk(t)
  {
  }

  lemma FreeKeepsIds(s: State, p: nat, canariesOk: bool, nodeOk: bool)
    requires IdsOk(s) && s.activeCount == |s.active|
    ensures IdsOk(FreePtr(s, p, canariesOk, nodeOk))
  {
    hide ActiveIds, DelayedIds, ReclaimedIds, UpTo, FindFrom;
    var i := FindFrom(s.active, p, 0);
    if p != 0 && canariesOk && i < |s.active| {
      ActiveIdsRemove(s.active, i);
      DelayedIdsCons(Delayed(s.active[i], s.currentFrame, s.frame), s.delayed);
      ReclaimedIdsAppend(s.reclaimed, Reclaimed(s.active[i], None, s.frame));
    }
  }

  lemma DelayedIdsCons(d: Delayed, ds: seq<Delayed>)
    ensures DelayedIds([d] + ds) == multiset{d.rec.id} + DelayedIds(ds)
  {
    assert ([d] + ds)[1..] == ds;
  }

  lemma ReclaimedIdsAppend(rs: seq<Reclaimed>, r: Reclaimed)
    ensures ReclaimedIds(rs + [r]) == ReclaimedIds(rs) + multiset{r.rec.id}
  {
    ReclaimedIdsConcat(rs, [r]);
    assert [r][1..] == [];
  }

  lemma FreeKeepsTimes(s: State, p: nat, canariesOk: bool, nodeOk: bool)
    requires TimesOk(s) && s.activeCount == |s.active|
    ensures TimesOk(FreePtr(s, p, canariesOk, nodeOk))
  {
    var t := FreePtr(s, p, canariesOk, nodeOk);
    forall k | 0 <= k < |t.delayed|
      ensures DelayedOk(t, t.delayed[k])
    {
      if |t.delayed| == |s.delayed| {
        assert DelayedOk(s, s.delayed[k]);
      } else if k > 0 {
        assert DelayedOk(s, s.delayed[k - 1]);
      }
    }
  }

  lemma RemovalKeepsPtrs(s: State, t: State, i: nat)
    requires PtrsOk(s) && i < |s.active|
    requires t.active == s.active[..i] + s.active[i + 1..]
    requires t.delayed == s.delayed
          || (|t.delayed| == |s.delayed| + 1 && t.delayed[0].rec == s.active[i] && t.delayed[1..] == s.delayed)
    ensures PtrsOk(t)
  {
    forall j | 0 <= j < |t.active|
      ensures t.active[j] == s.active[if j < i then j else j + 1]
    {
    }
    assert forall k :: 0 < k < |t.delayed| && |t.delayed| == |s.delayed| + 1 ==> t.delayed[k] == s.delayed[k - 1];
  }

  lemma AdvanceKeepsInv(s: State)
    requires Inv(s)
    ensures Inv(Advance(s))
  {
    hide IdsOk, PtrsOk, TimesOk, Kept, Gone;
    SweepSplits(s.delayed, (s.currentFrame + 1) % FRAME_RANGE, s.frame + 1);
    AdvanceIds(s);
    AdvancePtrs(s);
    AdvanceTimes(s);
  }

  lemma AdvanceIds(s: State)
    requires IdsOk(s)
    ensures IdsOk(Advance(s))
  {
    hide Kept, Gone, DelayedIds, ReclaimedIds, ActiveIds, UpTo;
    var now := (s.currentFrame + 1) % FRAME_RANGE;
    SweepSplits(s.delayed, now, s.frame + 1);
    ReclaimedIdsConcat(s.reclaimed, Gone(s.delayed, now, s.frame + 1));
  }

  lemma AdvancePtrs(s: State)
    requires PtrsOk(s)
    ensures PtrsOk(Advance(s))
  {
    var t := Advance(s);
    KeptMembers(s.delayed, t.currentFrame);
    hide Kept, Gone;
    forall j, k | 0 <= j < |t.active| && 0 <= k < |t.delayed|
      ensures t.active[j].ptr != t.delayed[k].rec.ptr
    {
      assert t.delayed[k] in s.delayed;
    }
  }

  lemma AdvanceTimes(s: State)
    requires TimesOk(s)
    ensures TimesOk(Advance(s))
  {
    hide Kept, Gone, Expired;
    var t := Advance(s);
    var now := (s.frame + 1) % FRAME_RANGE;
    assert t.currentFrame == now;
    KeptMembers(s.delayed, now);
    GoneMembers(s.delayed, now, s.frame + 1);
    forall k | 0 <= k < |t.delayed|
      ensures DelayedOk(t, t.delayed[k])
    {
      var d := t.delayed[k];
      assert d in s.delayed && !Expired(d, now);
      var j :| 0 <= j < |s.delayed| && s.delayed[j] == d;
      assert DelayedOk(s, s.delayed[j]);
      DueAtThird(s, d);
    }
    forall k | 0 <= k < |t.reclaimed| && t.reclaimed[k].queuedAt.Some?
      ensures t.reclaimed[k].at == t.reclaimed[k].queuedAt.value + DELAYED_FRAMES
    {
      if k >= |s.reclaimed| {
        var r := t.reclaimed[k];
        assert r in Gone(s.delayed, now, s.frame + 1);
        var d :| d in s.delayed && Expired(d, now) && r == Reclaimed(d.rec, Some(d.at), s.frame + 1);
        var j :| 0 <= j < |s.delayed| && s.delayed[j] == d;
        assert DelayedOk(s, s.delayed[j]);
        DueAtThird(s, d);
      }
    }
  }

  // ----- whole runs

  datatype Op = OpAlloc(p: nat) | OpFree(p: nat, canariesOk: bool, nodeOk: bool) | OpAdvance

  /** An address that is still in use cannot come from the C library: no allocation then. */
  function Step(s: State, op: Op): (t: State)
    requires Inv(s)
    ensures Inv(t)
  {
    match op
    case OpAlloc(p) =>
      if InUse(s, p) then s
      else
        TrackKeepsInv(s, p);
        Track(s, p)
    case OpFree(p, canariesOk, nodeOk) =>
      FreeKeepsInv(s, p, canariesOk, nodeOk);
      FreePtr(s, p, canariesOk, nodeOk)
    case OpAdvance =>
      AdvanceKeepsInv(s);
      Advance(s)
  }

  function Exec(s: State, ops: seq<Op>): (t: State)
    requires Inv(s)
    ensures Inv(t)
    decreases |ops|
  {
    if ops == [] then s else Exec(Step(s, ops[0]), ops[1..])
  }

  function Advances(ops: seq<Op>): nat {
    if ops == [] then 0 else (if ops[0].OpAdvance? then 1 else 0) + Advances(ops[1..])
  }

  lemma {:induction false} UpToOnce(n: nat, k: nat)
    ensures UpTo(n)[k] == if k < n then 1 else 0
  {
    if n != 0 {
      UpToOnce(n - 1, k);
    }
  }

  /** Each allocation is in exactly one place after any run. */
  lemma ExactlyOnePlace(ops: seq<Op>, id: nat)
    ensures Inv(Start())
    ensures var s := Exec(Start(), ops);
            ActiveIds(s.active)[id] + DelayedIds(s.delayed)[id] + ReclaimedIds(s.reclaimed)[id]
            == if id < s.totalAllocations then 1 else 0
  {
    StartInv();
    var s := Exec(Start(), ops);
    UpToOnce(s.totalAllocations, id);
    hide ActiveIds, DelayedIds, ReclaimedIds, Exec;
    assert (ActiveIds(s.active) + DelayedIds(s.delayed) + ReclaimedIds(s.reclaimed))[id] == UpTo(s.totalAllocations)[id];
  }

  /** A second free of a queued address only counts an attempt. */
  lemma SecondFreeIsHarmless(s: State, k: nat, nodeOk: bool)
    requires Inv(s) && k < |s.delayed| && s.delayed[k].rec.ptr != 0
    ensures FreePtr(s, s.delayed[k].rec.ptr, true, nodeOk) == s.(doubleFrees := s.doubleFrees + 1)
  {
  }

  /** A new allocation is active under the next number; the others keep their places. */
  lemma TrackAdds(s: State, p: nat)
    requires Inv(s) && !InUse(s, p)
    ensures var t := Step(s, OpAlloc(p));
            && t.totalAllocations == s.totalAllocations + 1
            && t.active == [Record(s.totalAllocations, p)] + s.active
            && t.delayed == s.delayed && t.reclaimed == s.reclaimed && t.frame == s.frame
  {
    hide Inv, InUse;
  }

  ghost predicate IsActive(s: State, rec: Record) {
    exists k :: 0 <= k < |s.active| && s.active[k] == rec
  }

  lemma FoundIsRecord(s: State, rec: Record)
    requires PtrsOk(s) && IsActive(s, rec)
    ensures var i := FindFrom(s.active, rec.ptr, 0);
            i < |s.active| && s.active[i] == rec
  {
    var k :| 0 <= k < |s.active| && s.active[k] == rec;
    var i := FindFrom(s.active, rec.ptr, 0);
    assert i <= k;
  }

  /** A free of an active address with good canaries takes its record off the active list. It
      waits in the queue, with the number of the frame, if and only if the queue has room and a
      node is granted; otherwise it is given back at once. */
  lemma FreeOfActive(s: State, rec: Record, nodeOk: bool)
    requires Inv(s) && IsActive(s, rec) && rec.ptr != 0
    ensures var t := Step(s, OpFree(rec.ptr, true, nodeOk));
            && t.frame == s.frame && t.totalFrees == s.totalFrees + 1 && t.doubleFrees == s.doubleFrees
            && ActiveIds(t.active) + multiset{rec.id} == ActiveIds(s.active)
            && if |s.delayed| < MAX_DELAYED && nodeOk
               then t.delayed == [Delayed(rec, s.currentFrame, s.frame)] + s.delayed && t.reclaimed == s.reclaimed
               else t.delayed == s.delayed && t.reclaimed == s.reclaimed + [Reclaimed(rec, None, s.frame)]
  {
    FoundIsRecord(s, rec);
    ActiveIdsRemove(s.active, FindFrom(s.active, rec.ptr, 0));
    CountsFit(s);
    hide Inv, FindFrom, ActiveIds;
  }

  lemma CountsFit(s: State)
    requires Inv(s)
    ensures s.activeCount == |s.active| && s.delayedCount == |s.delayed|
  {
  }

  /** A free of no address, of one with bad canaries or of one that is not active: nothing
      moves, and only the last is counted. */
  lemma FreeRefused(s: State, p: nat, canariesOk: bool, nodeOk: bool)
    requires Inv(s) && (p == 0 || !canariesOk || forall k :: 0 <= k < |s.active| ==> s.active[k].ptr != p)
    ensures Step(s, OpFree(p, canariesOk, nodeOk))
         == if p == 0 || !canariesOk then s else s.(doubleFrees := s.doubleFrees + 1)
  {
    hide Inv;
  }

  lemma {:induction false} DelayedCounted(ds: seq<Delayed>, d: Delayed)
    requires d in ds
    ensures DelayedIds(ds)[d.rec.id] > 0
    decreases |ds|
  {
    if ds[0] != d {
      DelayedCounted(ds[1..], d);
    }
  }

  lemma {:induction false} ReclaimedCounted(rs: seq<Reclaimed>, r: Reclaimed)
    requires r in rs
    ensures ReclaimedIds(rs)[r.rec.id] > 0
    decreases |rs|
  {
    if rs[0] != r {
      ReclaimedCounted(rs[1..], r);
    }
  }

  /** What waits in the queue has not been given back. */
  lemma QueuedNotReclaimed(s: State, d: Delayed, r: Reclaimed)
    requires Inv(s) && d in s.delayed && r in s.reclaimed
    ensures r.rec.id != d.rec.id
  {
    DelayedCounted(s.delayed, d);
    ReclaimedCounted(s.reclaimed, r);
    UpToOnce(s.totalAllocations, d.rec.id);
    assert (ActiveIds(s.active) + DelayedIds(s.delayed) + ReclaimedIds(s.reclaimed))[d.rec.id]
           == UpTo(s.totalAllocations)[d.rec.id];
  }

  lemma QueuedIsYoung(s: State, d: Delayed)
    requires Inv(s) && d in s.delayed
    ensures DelayedOk(s, d)
  {
    var k :| 0 <= k < |s.delayed| && s.delayed[k] == d;
    assert DelayedOk(s, s.delayed[k]);
  }

  /** One step on a queued record: it stays queued, or this is the third advance and it is
      given back. */
  lemma QueuedStep(s: State, op: Op, d: Delayed)
    requires Inv(s) && d in s.delayed
    ensures var t := Step(s, op);
            && t.frame == s.frame + (if op.OpAdvance? then 1 else 0)
            && (t.frame < d.at + DELAYED_FRAMES ==> d in t.delayed)
            && (t.frame >= d.at + DELAYED_FRAMES ==>
                  t.frame == d.at + DELAYED_FRAMES && Reclaimed(d.rec, Some(d.at), t.frame) in t.reclaimed)
  {
    QueuedIsYoung(s, d);
    assert s.activeCount == |s.active| && s.currentFrame == s.frame % FRAME_RANGE;
    hide Inv, FreePtr, Advance;
    match op
    case OpAlloc(p) =>
    case OpFree(p, canariesOk, nodeOk) => FreeKeepsQueued(s, p, canariesOk, nodeOk, d);
    case OpAdvance =>
      assert Advance(s).frame == s.frame + 1 by { AdvanceCounts(s); }
      QueuedAdvance(s, d);
  }

  lemma AdvanceCounts(s: State)
    ensures Advance(s).frame == s.frame + 1
  {
  }

  /** A free only adds to the queue. */
  lemma FreeKeepsQueued(s: State, p: nat, canariesOk: bool, nodeOk: bool, d: Delayed)
    requires s.activeCount == |s.active| && d in s.delayed
    ensures var t := FreePtr(s, p, canariesOk, nodeOk);
            t.frame == s.frame && d in t.delayed
  {
    hide FindFrom;
  }

  lemma QueuedAdvance(s: State, d: Delayed)
    requires d in s.delayed && DelayedOk(s, d) && s.currentFrame == s.frame % FRAME_RANGE
    ensures var t := Advance(s);
            if t.frame < d.at + DELAYED_FRAMES then d in t.delayed
            else t.frame == d.at + DELAYED_FRAMES && Reclaimed(d.rec, Some(d.at), t.frame) in t.reclaimed
  {
    hide Kept, Gone, Expired;
    CounterAdvances(s.frame);
    DueAtThird(s, d);
    SweptOrKept(s.delayed, (s.currentFrame + 1) % FRAME_RANGE, s.frame + 1, s.reclaimed, d);
  }

  lemma CounterAdvances(frame: nat)
    ensures (frame % FRAME_RANGE + 1) % FRAME_RANGE == (frame + 1) % FRAME_RANGE
  {
  }

  lemma SweptOrKept(ds: seq<Delayed>, now: nat, frame: nat, before: seq<Reclaimed>, d: Delayed)
    requires d in ds
    ensures if Expired(d, now) then Reclaimed(d.rec, Some(d.at), frame) in before + Gone(ds, now, frame)
            else d in Kept(ds, now)
  {
    hide Kept, Gone, Expired;
    KeptMembers(ds, now);
    GoneMembers(ds, now, frame);
  }

  lemma StepKeepsReclaimed(s: State, op: Op, r: Reclaimed)
    requires Inv(s) && r in s.reclaimed
    ensures r in Step(s, op).reclaimed
  {
  }

  lemma {:induction false} ReclaimedStays(s: State, ops: seq<Op>, r: Reclaimed)
    requires Inv(s) && r in s.reclaimed
    ensures r in Exec(s, ops).reclaimed
    decreases |ops|
  {
    if ops != [] {
      StepKeepsReclaimed(s, ops[0], r);
      hide Inv, Step;
      ReclaimedStays(Step(s, ops[0]), ops[1..], r);
    }
  }

  /** A record queued in some frame stays queued until the third following advance and is given
      back at exactly that one, over every run. */
  lemma {:induction false} QueuedRunsOut(s: State, ops: seq<Op>, d: Delayed)
    requires Inv(s) && d in s.delayed
    ensures var t := Exec(s, ops);
            if s.frame + Advances(ops) < d.at + DELAYED_FRAMES then d in t.delayed
            else Reclaimed(d.rec, Some(d.at), d.at + DELAYED_FRAMES) in t.reclaimed
    decreases |ops|
  {
    hide Inv, Step;
    if ops == [] {
      QueuedIsYoung(s, d);
    } else {
      QueuedStep(s, ops[0], d);
      var t := Step(s, ops[0]);
      if t.frame < d.at + DELAYED_FRAMES {
        QueuedRunsOut(t, ops[1..], d);
      } else {
        ReclaimedStays(t, ops[1..], Reclaimed(d.rec, Some(d.at), t.frame));
      }
    }
  }

  /** A record queued in the present frame is not given back before the third following
      advance, and is given back at exactly that one. */
  lemma WaitsThreeFrames(s: State, ops: seq<Op>, d: Delayed)
    requires Inv(s) && d in s.delayed && d.at == s.frame
    ensures var t := Exec(s, ops);
            if Advances(ops) < DELAYED_FRAMES then forall r :: r in t.reclaimed ==> r.rec.id != d.rec.id
            else Reclaimed(d.rec, Some(s.frame), s.frame + DELAYED_FRAMES) in t.reclaimed
  {
    hide Inv, Exec, Advances;
    QueuedRunsOut(s, ops, d);
    var t := Exec(s, ops);
    if Advances(ops) < DELAYED_FRAMES {
      forall r | r in t.reclaimed
        ensures r.rec.id != d.rec.id
      {
        QueuedNotReclaimed(t, d, r);
      }
    }
  }

  lemma FreeQueues(s: State, rec: Record)
    requires Inv(s) && IsActive(s, rec) && rec.ptr != 0 && |s.delayed| < MAX_DELAYED
    ensures var u := Step(s, OpFree(rec.ptr, true, true));
            u.frame == s.frame && Delayed(rec, s.currentFrame, s.frame) in u.delayed
  {
    hide Inv, Step, IsActive, ActiveIds;
    FreeOfActive(s, rec, true);
  }

  /** So it is, over every run, with every record that a free could queue. */
  lemma FreeWaitsThreeFrames(s: State, rec: Record, ops: seq<Op>)
    requires Inv(s) && IsActive(s, rec) && rec.ptr != 0 && |s.delayed| < MAX_DELAYED
    ensures var t := Exec(Step(s, OpFree(rec.ptr, true, true)), ops);
            if Advances(ops) < DELAYED_FRAMES then forall r :: r in t.reclaimed ==> r.rec.id != rec.id
            else Reclaimed(rec, Some(s.frame), s.frame + DELAYED_FRAMES) in t.reclaimed
  {
    hide Inv, Step, Exec, IsActive, Advances;
    FreeQueues(s, rec);
    WaitsThreeFrames(Step(s, OpFree(rec.ptr, true, true)), ops, Delayed(rec, s.currentFrame, s.frame));
  }
}
