/**
 * Allocation tracking and delayed reclamation as the program runs them: two lists edited in
 * place, with counters, a 32-bit frame number and loops. Proved against module DelayedFree.
 */
module MemorySafety {
  import opened Basics
  import opened DelayedFree

  datatype Node = Node(rec: Record, frameFreed: nat)

  function NodeOf(d: Delayed): Node {
    Node(d.rec, d.frameFreed)
  }

  ghost predicate NodesMatch(nodes: seq<Node>, ds: seq<Delayed>) {
    |nodes| == |ds| && forall k :: 0 <= k < |ds| ==> nodes[k] == NodeOf(ds[k])
  }

  function RecsOf(rs: seq<Reclaimed>): seq<Record> {
    if rs == [] then [] else [rs[0].rec] + RecsOf(rs[1..])
  }

  class SafetyState {
    var active: seq<Record>
    var activeCount: nat
    var delayedQueue: seq<Node>
    var delayedCount: nat
    var currentFrame: nat
    var totalAllocations: nat
    var totalFrees: nat
    var doubleFreeAttempts: nat
    ghost var model: State

    ghost predicate Valid()
      reads this
    {
      && Inv(model) && active == model.active && activeCount == model.activeCount
      && NodesMatch(delayedQueue, model.delayed) && delayedCount == model.delayedCount
      && currentFrame == model.currentFrame && totalAllocations == model.totalAllocations
      && totalFrees == model.totalFrees && doubleFreeAttempts == model.doubleFrees
    }

    constructor ()
      ensures Valid() && model == Start()
    {
      active, activeCount, delayedQueue, delayedCount := [], 0, [], 0;
      currentFrame, totalAllocations, totalFrees, doubleFreeAttempts := 0, 0, 0, 0;
      model := Start();
      StartInv();
    }

    /** The C library returned p, which is not in use. */
    method TrackAllocation(p: nat)
      requires Valid() && !InUse(model, p)
      modifies this
      ensures Valid() && model == Track(old(model), p)
    {
      TrackKeepsInv(model, p);
      hide Inv;
      active := [Record(totalAllocations, p)] + active;
      activeCount := activeCount + 1;
      totalAllocations := totalAllocations + 1;
      model := Track(model, p);
    }

    /** Take the record of an address off the list of active ones. */
    method Untrack(p: nat) returns (found: bool, rec: Record)
      requires activeCount == |active|
      modifies this`active, this`activeCount, this`totalFrees, this`doubleFreeAttempts
      ensures var i := FindFrom(old(active), p, 0);
              && (found <==> i < |old(active)|)
              && (found ==> && rec == old(active)[i]
                            && active == old(active)[..i] + old(active)[i + 1..]
                            && activeCount == old(activeCount) - 1 && totalFrees == old(totalFrees) + 1
                            && doubleFreeAttempts == old(doubleFreeAttempts))
              && (!found ==> && active == old(active) && activeCount == old(activeCount)
                             && totalFrees == old(totalFrees)
                             && doubleFreeAttempts == old(doubleFreeAttempts) + 1)
    {
      var i := 0;
      rec := Record(0, 0);
      while i < |active|
        invariant 0 <= i <= |active| && active == old(active) && activeCount == old(activeCount)
        invariant totalFrees == old(totalFrees) && doubleFreeAttempts == old(doubleFreeAttempts)
        invariant FindFrom(active, p, i) == FindFrom(active, p, 0)
      {
        if active[i].ptr == p {
          rec := active[i];
          active := active[..i] + active[i + 1..];
          activeCount := activeCount - 1;
          totalFrees := totalFrees + 1;
          return true, rec;
        }
        i := i + 1;
      }
      doubleFreeAttempts := doubleFreeAttempts + 1;
      found := false;
    }

    /** Free an address; returns the record when it goes back to the C library at once. */
    method SafetyFree(p: nat, canariesOk: bool, nodeOk: bool) returns (now: Option<Record>)
      requires Valid()
      modifies this
      ensures Valid() && old(model).activeCount == |old(model).active|
      ensures model == FreePtr(old(model), p, canariesOk, nodeOk)
      ensures model.reclaimed == old(model).reclaimed
                + if now.Some? then [Reclaimed(now.value, None, old(model).frame)] else []
    {
      hide Inv, FindFrom;
      now := None;
      ghost var m := model;
      CountsOk(m);
      FreeKeepsInv(m, p, canariesOk, nodeOk);
      if p == 0 || !canariesOk {
        return;
      }
      var found, rec := Untrack(p);
      if found {
        if delayedCount < MAX_DELAYED && nodeOk {
          NodesCons(delayedQueue, m.delayed, Delayed(rec, currentFrame, m.frame));
          delayedQueue := [Node(rec, currentFrame)] + delayedQueue;
          delayedCount := delayedCount + 1;
        } else {
          now := Some(rec);
        }
      }
      model := FreePtr(m, p, canariesOk, nodeOk);
    }

    /** Start the next frame and give back every record whose time has come. */
    method AdvanceFrame() returns (freed: seq<Record>)
      requires Valid()
      modifies this
      ensures Valid() && model == Advance(old(model))
      ensures freed == RecsOf(Gone(old(model).delayed, model.currentFrame, model.frame))
    {
      hide Inv, Kept, Gone;
      ghost var m := model;
      CountsOk(m);
      AdvanceKeepsInv(m);
      currentFrame := (currentFrame + 1) % FRAME_RANGE;
      freed := Sweep(m.delayed, m.frame + 1);
      model := Advance(m);
    }

    /** Walk the queue once, unlinking what has expired. */
    method Sweep(ghost ds: seq<Delayed>, ghost frame: nat) returns (freed: seq<Record>)
      requires NodesMatch(delayedQueue, ds) && delayedCount == |delayedQueue|
      modifies this`delayedQueue, this`delayedCount
      ensures NodesMatch(delayedQueue, Kept(ds, currentFrame)) && delayedCount == |Kept(ds, currentFrame)|
      ensures freed == RecsOf(Gone(ds, currentFrame, frame))
    {
      hide Kept, Gone, RecsOf, NodesMatch;
      freed := [];
      ghost var done: seq<Delayed>, j := [], 0;
      var i := 0;
      assert ds[0..] == ds && done + ds[0..] == ds;
      NodesLength(delayedQueue, ds);
      SweepStart(ds, currentFrame, frame);
      while i < |delayedQueue|
        invariant i == |done| <= |delayedQueue| == delayedCount && j <= |ds|
        invariant |delayedQueue| == |done| + |ds| - j
        invariant NodesMatch(delayedQueue, done + ds[j..])
        invariant Kept(ds, currentFrame) == done + Kept(ds[j..], currentFrame)
        invariant RecsOf(Gone(ds, currentFrame, frame)) == freed + RecsOf(Gone(ds[j..], currentFrame, frame))
        decreases |ds| - j
      {
        SkipNode(delayedQueue, done, ds, j);
        SweepStep(ds, j, currentFrame, frame);
        ConcatAssoc(done, [ds[j]], Kept(ds[j + 1..], currentFrame));
        ConcatAssoc(freed, [ds[j].rec], RecsOf(Gone(ds[j + 1..], currentFrame, frame)));
        if Elapsed(currentFrame, delayedQueue[i].frameFreed) >= DELAYED_FRAMES {
          freed := freed + [delayedQueue[i].rec];
          delayedQueue := delayedQueue[..i] + delayedQueue[i + 1..];
          delayedCount := delayedCount - 1;
        } else {
          done := done + [ds[j]];
          i := i + 1;
        }
        j := j + 1;
      }
      assert ds[j..] == [] && done + ds[j..] == done;
      SweepEnd(currentFrame, frame);
    }
  }

  lemma CountsOk(s: State)
    requires Inv(s)
    ensures s.activeCount == |s.active| && s.delayedCount == |s.delayed|
  {
  }

  lemma NodesLength(nodes: seq<Node>, ds: seq<Delayed>)
    requires NodesMatch(nodes, ds)
    ensures |nodes| == |ds|
  {
  }

  lemma NodesCons(nodes: seq<Node>, ds: seq<Delayed>, d: Delayed)
    requires NodesMatch(nodes, ds)
    ensures NodesMatch([NodeOf(d)] + nodes, [d] + ds)
  {
  }

  /** The node under the cursor is the next element; it can be unlinked or passed over. */
  lemma SkipNode(nodes: seq<Node>, done: seq<Delayed>, ds: seq<Delayed>, j: nat)
    requires j <= |ds| && NodesMatch(nodes, done + ds[j..]) && |done| < |nodes|
    ensures j < |ds| && nodes[|done|] == NodeOf(ds[j])
    ensures NodesMatch(nodes[..|done|] + nodes[|done| + 1..], done + ds[j + 1..])
    ensures NodesMatch(nodes, (done + [ds[j]]) + ds[j + 1..])
  {
    var all := done + ds[j..];
    assert all[|done|] == ds[j];
    assert all == (done + [ds[j]]) + ds[j + 1..];
    var rest := nodes[..|done|] + nodes[|done| + 1..];
    forall k | 0 <= k < |rest|
      ensures rest[k] == NodeOf((done + ds[j + 1..])[k])
    {
      var k0 := if k < |done| then k else k + 1;
      assert rest[k] == nodes[k0] == NodeOf(all[k0]);
    }
  }

  lemma SweepStart(ds: seq<Delayed>, now: nat, frame: nat)
    ensures Kept(ds, now) == [] + Kept(ds[0..], now)
    ensures RecsOf(Gone(ds, now, frame)) == [] + RecsOf(Gone(ds[0..], now, frame))
  {
    assert ds[0..] == ds;
  }

  lemma SweepEnd(now: nat, frame: nat)
    ensures Kept([], now) == [] && RecsOf(Gone([], now, frame)) == []
  {
  }

  /** One element of the sweep. */
  lemma SweepStep(ds: seq<Delayed>, j: nat, now: nat, frame: nat)
    requires j < |ds|
    ensures Expired(ds[j], now) ==>
              && Kept(ds[j..], now) == Kept(ds[j + 1..], now)
              && RecsOf(Gone(ds[j..], now, frame)) == [ds[j].rec] + RecsOf(Gone(ds[j + 1..], now, frame))
    ensures !Expired(ds[j], now) ==>
              && Kept(ds[j..], now) == [ds[j]] + Kept(ds[j + 1..], now)
              && Gone(ds[j..], now, frame) == Gone(ds[j + 1..], now, frame)
  {
    assert ds[j..][0] == ds[j] && ds[j..][1..] == ds[j + 1..];
    var g := Gone(ds[j + 1..], now, frame);
    assert ([Reclaimed(ds[j].rec, Some(ds[j].at), frame)] + g)[1..] == g;
  }
}
