/**
 * The zones of one profiled frame, under a clock that never goes back. Ticks number the begin
 * and end calls, so that "open when another zone began" has a meaning of its own.
 */
module ProfileModel {

  const MAX_DEPTH := 64

  datatype Zone = Zone(
    name: string, start: nat, duration: nat, depth: nat, closed: bool, beginTick: nat, endTick: nat)
  {
    function End(): nat { start + duration }
  }

  /** `stack` holds the open zones, innermost last; `now` is the latest clock reading. */
  datatype Frame = Frame(zones: seq<Zone>, stack: seq<nat>, tick: nat, now: nat)

  function NewFrame(t: nat): (f: Frame)
    ensures Inv(f)
  {
    Frame([], [], 0, t)
  }

  predicate CanBegin(f: Frame, maxZones: nat) {
    |f.zones| < maxZones && |f.stack| < MAX_DEPTH
  }

  function Begin(f: Frame, name: string, t: nat): Frame {
    Frame(f.zones + [Zone(name, t, 0, |f.stack|, false, f.tick, 0)], f.stack + [|f.zones|], f.tick + 1, t)
  }

  function EndZone(f: Frame, t: nat): Frame
    requires f.stack != [] && f.stack[|f.stack| - 1] < |f.zones|
    requires f.zones[f.stack[|f.stack| - 1]].start <= t
  {
    var i := f.stack[|f.stack| - 1];
    Frame(f.zones[i := f.zones[i].(duration := t - f.zones[i].start, closed := true, endTick := f.tick)],
          f.stack[..|f.stack| - 1], f.tick + 1, t)
  }

  // ----- the invariant

  /** Zone x was still open when zone y began. */
  predicate OpenAt(x: Zone, y: Zone) {
    !x.closed || x.endTick > y.beginTick
  }

  /** Zone y began inside x and, if x has ended, ended inside it. */
  predicate Inside(x: Zone, y: Zone) {
    && OpenAt(x, y) && x.start <= y.start
    && (x.closed ==> y.closed && y.endTick < x.endTick && y.End() <= x.End())
  }

  /** Zone x ended before y began. */
  predicate Before(x: Zone, y: Zone) {
    x.closed && x.endTick < y.beginTick && x.End() <= y.start
  }

  ghost predicate PairOk(zones: seq<Zone>, i: nat, j: nat)
    requires i < j < |zones|
  {
    zones[i].beginTick < zones[j].beginTick && (Inside(zones[i], zones[j]) || Before(zones[i], zones[j]))
  }

  ghost predicate PairsOk(zones: seq<Zone>) {
    forall i, j :: 0 <= i < j < |zones| ==> PairOk(zones, i, j)
  }

  ghost predicate TimesOk(f: Frame) {
    forall i :: 0 <= i < |f.zones| ==>
      && f.zones[i].beginTick < f.tick && f.zones[i].End() <= f.now
      && (f.zones[i].closed ==> f.zones[i].beginTick < f.zones[i].endTick < f.tick)
      && (!f.zones[i].closed ==> f.zones[i].duration == 0)
  }

  ghost predicate StackOk(f: Frame) {
    && (forall k :: 0 <= k < |f.stack| ==> f.stack[k] < |f.zones| && !f.zones[f.stack[k]].closed)
    && (forall j, k :: 0 <= j < k < |f.stack| ==> f.stack[j] < f.stack[k])
    && (forall i :: 0 <= i < |f.zones| && !f.zones[i].closed ==> i in f.stack)
  }

  /** How many of the first n zones were open when zone y began. */
  function OpenCount(zones: seq<Zone>, y: Zone, n: nat): nat
    requires n <= |zones|
  {
    if n == 0 then 0 else OpenCount(zones, y, n - 1) + if OpenAt(zones[n - 1], y) then 1 else 0
  }

  function Unclosed(zones: seq<Zone>, n: nat): nat
    requires n <= |zones|
  {
    if n == 0 then 0 else Unclosed(zones, n - 1) + if zones[n - 1].closed then 0 else 1
  }

  ghost predicate DepthsOk(f: Frame) {
    && Unclosed(f.zones, |f.zones|) == |f.stack|
    && forall j :: 0 <= j < |f.zones| ==> f.zones[j].depth == OpenCount(f.zones, f.zones[j], j)
  }

  ghost predicate Inv(f: Frame) {
    PairsOk(f.zones) && TimesOk(f) && StackOk(f) && DepthsOk(f)
  }

  // ----- counting lemmas

  lemma {:induction false} OpenCountAppend(zones: seq<Zone>, z: Zone, y: Zone, n: nat)
    requires n <= |zones|
    ensures OpenCount(zones + [z], y, n) == OpenCount(zones, y, n)
  {
    if n != 0 {
      OpenCountAppend(zones, z, y, n - 1);
    }
  }

  lemma {:induction false} UnclosedAppend(zones: seq<Zone>, z: Zone, n: nat)
    requires n <= |zones|
    ensures Unclosed(zones + [z], n) == Unclosed(zones, n)
  {
    if n != 0 {
      UnclosedAppend(zones, z, n - 1);
    }
  }

  /** When a zone begins now, the zones open then are the ones not closed yet. */
  lemma {:induction false} OpenNow(zones: seq<Zone>, y: Zone, n: nat)
    requires n <= |zones| && forall i :: 0 <= i < n && zones[i].closed ==> zones[i].endTick < y.beginTick
    ensures OpenCount(zones, y, n) == Unclosed(zones, n)
  {
    if n != 0 {
      OpenNow(zones, y, n - 1);
    }
  }

  /** Closing a zone later than y began does not change what was open at y. */
  lemma {:induction false} OpenCountClose(zones: seq<Zone>, i: nat, z: Zone, y: Zone, n: nat)
    requires n <= |zones| && i < |zones| && OpenAt(zones[i], y) && OpenAt(z, y)
    ensures OpenCount(zones[i := z], y, n) == OpenCount(zones, y, n)
  {
    if n != 0 {
      OpenCountClose(zones, i, z, y, n - 1);
    }
  }

  lemma {:induction false} UnclosedClose(zones: seq<Zone>, i: nat, z: Zone, n: nat)
    requires n <= |zones| && i < |zones| && !zones[i].closed && z.closed
    ensures Unclosed(zones[i := z], n) == Unclosed(zones, n) - if i < n then 1 else 0
  {
    if n != 0 {
      UnclosedClose(zones, i, z, n - 1);
    }
  }

  // ----- begin

  lemma BeginKeepsInv(f: Frame, name: string, t: nat)
    requires Inv(f) && f.now <= t
    ensures Inv(Begin(f, name, t))
  {
    hide DepthsOk, StackOk;
    BeginPairs(f, name, t);
    BeginStack(f, name, t);
    BeginDepths(f, name, t);
  }

  lemma BeginPairs(f: Frame, name: string, t: nat)
    requires PairsOk(f.zones) && TimesOk(f) && f.now <= t
    ensures PairsOk(Begin(f, name, t).zones) && TimesOk(Begin(f, name, t))
  {
    var r := Begin(f, name, t);
    forall i, j | 0 <= i < j < |r.zones|
      ensures PairOk(r.zones, i, j)
    {
      if j < |f.zones| {
        assert PairOk(f.zones, i, j);
      }
    }
  }

  lemma BeginStack(f: Frame, name: string, t: nat)
    requires StackOk(f)
    ensures StackOk(Begin(f, name, t))
  {
    var r := Begin(f, name, t);
    forall i | 0 <= i < |r.zones| && !r.zones[i].closed
      ensures i in r.stack
    {
      if i < |f.zones| {
        assert i in f.stack;
      } else {
        assert r.stack[|f.stack|] == i;
      }
    }
  }

  lemma BeginDepths(f: Frame, name: string, t: nat)
    requires DepthsOk(f) && TimesOk(f)
    ensures DepthsOk(Begin(f, name, t))
  {
    var r := Begin(f, name, t);
    var z := r.zones[|f.zones|];
    UnclosedAppend(f.zones, z, |f.zones|);
    forall j | 0 <= j < |r.zones|
      ensures r.zones[j].depth == OpenCount(r.zones, r.zones[j], j)
    {
      OpenCountAppend(f.zones, z, r.zones[j], j);
      if j == |f.zones| {
        OpenNow(f.zones, z, j);
      }
    }
  }

  // ----- end

  /** Zones that began after the innermost open one have ended. */
  lemma TopIsLast(f: Frame, j: nat)
    requires StackOk(f) && f.stack != [] && f.stack[|f.stack| - 1] < j < |f.zones|
    ensures f.zones[j].closed
  {
  }

  lemma EndKeepsInv(f: Frame, t: nat)
    requires Inv(f) && f.stack != [] && f.now <= t
    ensures f.stack[|f.stack| - 1] < |f.zones| && f.zones[f.stack[|f.stack| - 1]].start <= t
    ensures Inv(EndZone(f, t))
  {
    var i := f.stack[|f.stack| - 1];
    assert i < |f.zones| && !f.zones[i].closed;
    assert f.zones[i].End() <= f.now;
    hide DepthsOk, PairsOk;
    EndPairs(f, t);
    EndTimes(f, t);
    EndStack(f, t);
    EndDepths(f, t);
  }

  ghost predicate Ready(f: Frame, t: nat) {
    && f.stack != [] && f.now <= t && f.stack[|f.stack| - 1] < |f.zones|
    && f.zones[f.stack[|f.stack| - 1]].start <= t
  }

  lemma EndPairs(f: Frame, t: nat)
    requires PairsOk(f.zones) && TimesOk(f) && StackOk(f) && Ready(f, t)
    ensures PairsOk(EndZone(f, t).zones)
  {
    var r := EndZone(f, t);
    var top := f.stack[|f.stack| - 1];
    assert !f.zones[top].closed;
    forall i, j | 0 <= i < j < |r.zones|
      ensures PairOk(r.zones, i, j)
    {
      assert PairOk(f.zones, i, j);
      if i == top {
        TopIsLast(f, j);
      }
    }
  }

  lemma EndTimes(f: Frame, t: nat)
    requires TimesOk(f) && Ready(f, t)
    ensures TimesOk(EndZone(f, t))
  {
  }

  lemma EndStack(f: Frame, t: nat)
    requires StackOk(f) && Ready(f, t)
    ensures StackOk(EndZone(f, t))
  {
    var r := EndZone(f, t);
    var n := |f.stack| - 1;
    forall i | 0 <= i < |r.zones| && !r.zones[i].closed
      ensures i in r.stack
    {
      assert i in f.stack;
      var k :| 0 <= k < |f.stack| && f.stack[k] == i;
      assert r.stack[k] == i;
    }
    forall k | 0 <= k < |r.stack|
      ensures r.stack[k] < |r.zones| && !r.zones[r.stack[k]].closed
    {
      assert f.stack[k] < f.stack[n];
    }
  }

  lemma EndDepths(f: Frame, t: nat)
    requires DepthsOk(f) && TimesOk(f) && StackOk(f) && Ready(f, t)
    ensures DepthsOk(EndZone(f, t))
  {
    var r := EndZone(f, t);
    var top := f.stack[|f.stack| - 1];
    assert !f.zones[top].closed;
    UnclosedClose(f.zones, top, r.zones[top], |f.zones|);
    forall j | 0 <= j < |r.zones|
      ensures r.zones[j].depth == OpenCount(r.zones, r.zones[j], j)
    {
      OpenCountClose(f.zones, top, r.zones[top], f.zones[j], j);
      SameBegin(r.zones, f.zones[j], r.zones[j], j);
    }
  }

  /** Only the begin tick of y matters for what was open when it began. */
  lemma {:induction false} SameBegin(zones: seq<Zone>, y: Zone, y': Zone, n: nat)
    requires n <= |zones| && y.beginTick == y'.beginTick
    ensures OpenCount(zones, y, n) == OpenCount(zones, y', n)
  {
    if n != 0 {
      SameBegin(zones, y, y', n - 1);
    }
  }

  // ----- whole frames

  datatype Op = OpBegin(name: string, t: nat) | OpEnd(t: nat)

  /** A call that is refused, or a clock that would go back, changes nothing. */
  function Step(f: Frame, op: Op, maxZones: nat): (r: Frame)
    requires Inv(f)
    ensures Inv(r)
  {
    if op.t < f.now then f
    else
      match op
      case OpBegin(name, t) =>
        if CanBegin(f, maxZones) then
          BeginKeepsInv(f, name, t);
          Begin(f, name, t)
        else f
      case OpEnd(t) =>
        if f.stack != [] then
          EndKeepsInv(f, t);
          EndZone(f, t)
        else f
  }

  function Exec(f: Frame, ops: seq<Op>, maxZones: nat): (r: Frame)
    requires Inv(f)
    ensures Inv(r)
    decreases |ops|
  {
    if ops == [] then f else Exec(Step(f, ops[0], maxZones), ops[1..], maxZones)
  }

  /** Any two closed zones of a frame have nested or ordered intervals. */
  lemma ZonesNest(t: nat, ops: seq<Op>, maxZones: nat, i: nat, j: nat)
    requires i < j < |Exec(NewFrame(t), ops, maxZones).zones|
    ensures var zs := Exec(NewFrame(t), ops, maxZones).zones;
            var x, y := zs[i], zs[j];
            x.closed && y.closed ==> (x.start <= y.start && y.End() <= x.End()) || x.End() <= y.start
  {
    var f := Exec(NewFrame(t), ops, maxZones);
    assert PairOk(f.zones, i, j);
  }

  /** The depth of every zone is the number of zones that were open when it began. */
  lemma DepthIsOpenCount(t: nat, ops: seq<Op>, maxZones: nat, j: nat)
    requires j < |Exec(NewFrame(t), ops, maxZones).zones|
    ensures var zs := Exec(NewFrame(t), ops, maxZones).zones;
            zs[j].depth == OpenCount(zs, zs[j], j)
  {
    assert DepthsOk(Exec(NewFrame(t), ops, maxZones));
  }

  // ----- what the zones record

  /** A begin call is accepted while there is room for a zone and fewer than 64 are open, an end
      call while one is open; the clock must not go back. */
  predicate Accepts(f: Frame, op: Op, maxZones: nat) {
    var open := Unclosed(f.zones, |f.zones|);
    op.t >= f.now && if op.OpBegin? then |f.zones| < maxZones && open < MAX_DEPTH else open > 0
  }

  /** The accepted calls of a run, in order. */
  function Accepted(f: Frame, ops: seq<Op>, maxZones: nat): seq<Op>
    requires Inv(f)
    decreases |ops|
  {
    if ops == [] then []
    else (if Accepts(f, ops[0], maxZones) then [ops[0]] else [])
         + Accepted(Step(f, ops[0], maxZones), ops[1..], maxZones)
  }

  function Begins(calls: seq<Op>): nat {
    if calls == [] then 0 else Begins(calls[..|calls| - 1]) + if calls[|calls| - 1].OpBegin? then 1 else 0
  }

  /** Name and start of the zone are those of the begin call of its number; if it has ended, it
      ends at the clock of the end call of its number. */
  ghost predicate ZoneRecords(calls: seq<Op>, z: Zone) {
    && z.beginTick < |calls| && calls[z.beginTick] == OpBegin(z.name, z.start)
    && (z.closed ==> z.endTick < |calls| && calls[z.endTick] == OpEnd(z.End()))
  }

  /** There is one zone for each begin call, and as many zones are open as begin calls have
      not been answered. */
  ghost predicate Records(calls: seq<Op>, f: Frame) {
    && |calls| == f.tick && |f.zones| == Begins(calls)
    && Unclosed(f.zones, |f.zones|) == 2 * Begins(calls) - |calls|
    && forall k :: 0 <= k < |f.zones| ==> ZoneRecords(calls, f.zones[k])
  }

  lemma AcceptsIffChanges(f: Frame, op: Op, maxZones: nat)
    requires Inv(f)
    ensures !Accepts(f, op, maxZones) ==> Step(f, op, maxZones) == f
    ensures Accepts(f, op, maxZones) ==>
              match op
              case OpBegin(name, t) => Step(f, op, maxZones) == Begin(f, name, t)
              case OpEnd(t) => && f.stack != [] && f.stack[|f.stack| - 1] < |f.zones|
                               && f.zones[f.stack[|f.stack| - 1]].start <= t
                               && Step(f, op, maxZones) == EndZone(f, t)
  {
    assert Unclosed(f.zones, |f.zones|) == |f.stack|;
    hide PairsOk, DepthsOk, TimesOk, Unclosed;
    if op.OpEnd? && Accepts(f, op, maxZones) {
      EndKeepsInv(f, op.t);
    }
  }

  lemma BeginRecords(calls: seq<Op>, f: Frame, name: string, t: nat)
    requires Records(calls, f)
    ensures Records(calls + [OpBegin(name, t)], Begin(f, name, t))
  {
    hide Begins;
    var r := Begin(f, name, t);
    BeginsAppend(calls, OpBegin(name, t));
    UnclosedAppend(f.zones, r.zones[|f.zones|], |f.zones|);
    forall k | 0 <= k < |r.zones|
      ensures ZoneRecords(calls + [OpBegin(name, t)], r.zones[k])
    {
      if k < |f.zones| {
        StillRecords(calls, OpBegin(name, t), f.zones[k]);
      }
    }
  }

  lemma InnermostOpen(f: Frame, t: nat)
    requires Inv(f) && f.stack != [] && f.now <= t
    ensures var i := f.stack[|f.stack| - 1];
            i < |f.zones| && !f.zones[i].closed && f.zones[i].start <= t
  {
    hide PairsOk, DepthsOk;
    assert f.zones[f.stack[|f.stack| - 1]].End() <= f.now;
  }

  lemma EndOne(calls: seq<Op>, z: Zone, t: nat)
    requires ZoneRecords(calls, z) && z.start <= t
    ensures ZoneRecords(calls + [OpEnd(t)], z.(duration := t - z.start, closed := true, endTick := |calls|))
  {
  }

  lemma StillRecords(calls: seq<Op>, op: Op, z: Zone)
    requires ZoneRecords(calls, z)
    ensures ZoneRecords(calls + [op], z)
  {
  }

  lemma BeginsAppend(calls: seq<Op>, op: Op)
    ensures Begins(calls + [op]) == Begins(calls) + if op.OpBegin? then 1 else 0
  {
    assert (calls + [op])[..|calls|] == calls;
  }

  lemma EndRecords(calls: seq<Op>, f: Frame, t: nat)
    requires Records(calls, f) && Inv(f) && f.stack != [] && f.now <= t
    ensures f.stack[|f.stack| - 1] < |f.zones| && f.zones[f.stack[|f.stack| - 1]].start <= t
    ensures Records(calls + [OpEnd(t)], EndZone(f, t))
  {
    hide Inv, ZoneRecords, Begins, Unclosed;
    InnermostOpen(f, t);
    var i, r := f.stack[|f.stack| - 1], EndZone(f, t);
    BeginsAppend(calls, OpEnd(t));
    UnclosedClose(f.zones, i, r.zones[i], |f.zones|);
    forall k | 0 <= k < |r.zones|
      ensures ZoneRecords(calls + [OpEnd(t)], r.zones[k])
    {
      if k == i {
        EndOne(calls, f.zones[i], t);
      } else {
        StillRecords(calls, OpEnd(t), f.zones[k]);
      }
    }
  }

  lemma StepRecords(calls: seq<Op>, f: Frame, op: Op, maxZones: nat)
    requires Inv(f) && Records(calls, f)
    ensures Records(calls + (if Accepts(f, op, maxZones) then [op] else []), Step(f, op, maxZones))
  {
    AcceptsIffChanges(f, op, maxZones);
    if Accepts(f, op, maxZones) {
      match op
      case OpBegin(name, t) => BeginRecords(calls, f, name, t);
      case OpEnd(t) => EndRecords(calls, f, t);
    } else {
      assert calls + [] == calls;
    }
  }

  lemma {:induction false} RunRecords(calls: seq<Op>, f: Frame, ops: seq<Op>, maxZones: nat)
    requires Inv(f) && Records(calls, f)
    ensures Records(calls + Accepted(f, ops, maxZones), Exec(f, ops, maxZones))
    decreases |ops|
  {
    hide Inv, Records, Accepts, Step;
    if ops == [] {
      assert calls + [] == calls;
    } else {
      StepRecords(calls, f, ops[0], maxZones);
      var now := if Accepts(f, ops[0], maxZones) then [ops[0]] else [];
      var rest := Accepted(Step(f, ops[0], maxZones), ops[1..], maxZones);
      assert (calls + now) + rest == calls + (now + rest);
      RunRecords(calls + now, Step(f, ops[0], maxZones), ops[1..], maxZones);
    }
  }

  /** Over every run: one zone per accepted begin call, with its name and clock as the start,
      and every closed zone ends at the clock of the accepted end call that closed it. */
  lemma ZonesRecordCalls(t0: nat, ops: seq<Op>, maxZones: nat)
    ensures Records(Accepted(NewFrame(t0), ops, maxZones), Exec(NewFrame(t0), ops, maxZones))
  {
    assert Records([], NewFrame(t0));
    hide Inv, Records, Accepted, Exec, NewFrame;
    RunRecords([], NewFrame(t0), ops, maxZones);
    assert [] + Accepted(NewFrame(t0), ops, maxZones) == Accepted(NewFrame(t0), ops, maxZones);
  }
}
