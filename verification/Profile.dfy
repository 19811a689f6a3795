/**
 * The frame profiler as the program runs it: a zone array, a stack of open zones, and a ring
 * of finished frames. The clock reading of each call is a parameter.
 */
module Profile {
  import opened Basics
  import opened Bits
  import opened ProfileModel

  datatype Entry = Entry(name: string, startNs: nat, durationNs: nat, depth: nat, closed: bool)

  /** A finished frame of the history. */
  datatype FrameRecord = FrameRecord(frameNs: nat, zones: seq<Entry>)

  function EntryOf(z: Zone): Entry {
    Entry(z.name, z.start, z.duration, z.depth, z.closed)
  }

  ghost predicate EntriesMatch(es: seq<Entry>, zs: seq<Zone>) {
    |es| == |zs| && forall k :: 0 <= k < |zs| ==> es[k] == EntryOf(zs[k])
  }

  // ----- the ring

  /** Place of frame number n in a ring of m slots: n modulo m, see SlotIsRemainder. */
  function SlotOf(n: nat, m: nat): (i: nat)
    requires m > 0
    ensures i < m
    decreases n
  {
    if n < m then n else SlotOf(n - m, m)
  }

  lemma {:induction false} SlotIsRemainder(n: nat, m: nat)
    requires m > 0
    ensures SlotOf(n, m) == n % m
    decreases n
  {
    if n >= m {
      SlotIsRemainder(n - m, m);
      RemainderStep(m, n);
    }
  }

  lemma {:induction false} SlotAdd(n: nat, i: nat, m: nat)
    requires m > 0 && i <= m
    ensures SlotOf(n + i, m) == if SlotOf(n, m) + i < m then SlotOf(n, m) + i else SlotOf(n, m) + i - m
    decreases n
  {
    if n >= m {
      SlotAdd(n - m, i, m);
    }
  }

  /** Frames less than a ring apart have different slots. */
  lemma {:induction false} SlotDistinct(a: nat, b: nat, m: nat)
    requires m > 0 && a < b < a + m
    ensures SlotOf(a, m) != SlotOf(b, m)
    decreases a
  {
    if a >= m {
      SlotDistinct(a - m, b - m, m);
    }
  }

  lemma SmallRemainder(x: nat, m: nat)
    requires 0 < m && x < 2 * m
    ensures x % m == if x < m then x else x - m
  {
    SlotIsRemainder(x, m);
  }

  /** The ring holds the last `stored` frames of the log, each in its slot. */
  ghost predicate RingOk(ring: seq<FrameRecord>, head: nat, stored: nat, log: seq<FrameRecord>) {
    && |ring| > 0
    && stored == (if |log| < |ring| then |log| else |ring|)
    && head == SlotOf(|log|, |ring|)
    && forall n :: |log| - stored <= n < |log| ==> ring[SlotOf(n, |ring|)] == log[n]
  }

  lemma RingPush(ring: seq<FrameRecord>, head: nat, stored: nat, log: seq<FrameRecord>, x: FrameRecord)
    requires RingOk(ring, head, stored, log)
    ensures RingOk(ring[head := x], (head + 1) % |ring|, if stored < |ring| then stored + 1 else stored, log + [x])
  {
    var m := |ring|;
    var log' := log + [x];
    SlotAdd(|log|, 1, m);
    SmallRemainder(head + 1, m);
    hide SlotOf;
    var stored' := if stored < m then stored + 1 else stored;
    forall n | |log'| - stored' <= n < |log'|
      ensures ring[head := x][SlotOf(n, m)] == log'[n]
    {
      if n < |log| {
        SlotDistinct(n, |log|, m);
        assert ring[SlotOf(n, m)] == log[n];
      }
    }
  }

  /** Where the i-th stored frame lies, reading from the start position on. */
  function ReadIndex(head: nat, stored: nat, i: nat, m: nat): (k: nat)
    requires 0 < m && stored <= m
    ensures k < m
  {
    var start := (head + m - stored) % m;
    (start + i) % m
  }

  /** Reading from the start position, the i-th frame is the i-th of the last `stored` ones. */
  lemma RingReads(ring: seq<FrameRecord>, head: nat, stored: nat, log: seq<FrameRecord>, i: nat)
    requires RingOk(ring, head, stored, log) && i < stored
    ensures ring[ReadIndex(head, stored, i, |ring|)] == log[|log| - stored + i]
  {
    hide SlotOf, ReadIndex;
    var n := |log| - stored + i;
    assert ring[SlotOf(n, |ring|)] == log[n];
    ReadPosition(|log|, stored, i, |ring|);
  }

  /** The same, as the reading loop computes the place. */
  lemma RingReadsAt(ring: seq<FrameRecord>, head: nat, stored: nat, log: seq<FrameRecord>, i: nat, start: nat, idx: nat)
    requires RingOk(ring, head, stored, log) && i < stored
    requires start == (head + |ring| - stored) % |ring| && idx == (start + i) % |ring|
    ensures idx < |ring| && stored <= |log| && ring[idx] == log[|log| - stored..][i]
  {
    RingReads(ring, head, stored, log, i);
  }

  lemma RingCount(ring: seq<FrameRecord>, head: nat, stored: nat, log: seq<FrameRecord>)
    requires RingOk(ring, head, stored, log)
    ensures stored == (if |log| < |ring| then |log| else |ring|) && head < |ring|
  {
  }

  lemma ReadPosition(total: nat, stored: nat, i: nat, m: nat)
    requires m > 0 && stored == (if total < m then total else m) && i < stored
    ensures ReadIndex(SlotOf(total, m), stored, i, m) == SlotOf(total - stored + i, m)
  {
    var h := SlotOf(total, m);
    SmallRemainder(h + m - stored, m);
    if total < m {
      SmallRemainder(i, m);
    } else {
      SmallRemainder(h + i, m);
      SlotAdd(total - m, i, m);
    }
  }

  function FrameTime(r: FrameRecord): nat {
    r.frameNs
  }

  lemma AddTerm(log: seq<FrameRecord>, i: nat, total: nat, r: FrameRecord)
    requires i < |log| && log[i] == r && total == SumTo(log, i, FrameTime)
    ensures total + r.frameNs == SumTo(log, i + 1, FrameTime)
  {
  }

  // ----- the program

  class Context {
    const enabled: bool
    const maxZones: nat
    const maxFrames: nat
    const zones: array<Entry>
    const zoneStack: array<nat>
    const frames: array<FrameRecord>
    var frameStart: nat
    var zoneCount: nat
    var zoneDepth: nat
    var frameHead: nat
    var frameStored: nat
    var totalFrames: nat
    ghost var frame: Frame
    ghost var log: seq<FrameRecord>

    ghost predicate Valid()
      reads this, zones, zoneStack, frames
    {
      && zones.Length == maxZones && zoneStack.Length == MAX_DEPTH && frames.Length == maxFrames > 0
      && Inv(frame) && zoneCount == |frame.zones| <= maxZones && zoneDepth == |frame.stack| <= MAX_DEPTH
      && frameStart <= frame.now
      && EntriesMatch(zones[..zoneCount], frame.zones) && zoneStack[..zoneDepth] == frame.stack
      && RingOk(frames[..], frameHead, frameStored, log) && totalFrames == |log|
    }

    constructor (enabled: bool, maxZones: nat, maxFrames: nat)
      requires maxFrames > 0
      ensures Valid() && frame == NewFrame(0) && log == [] && frameStart == 0
      ensures this.enabled == enabled && this.maxZones == maxZones && this.maxFrames == maxFrames
    {
      this.enabled, this.maxZones, this.maxFrames := enabled, maxZones, maxFrames;
      zones := new Entry[maxZones](_ => Entry("", 0, 0, 0, false));
      zoneStack := new nat[MAX_DEPTH](_ => 0);
      frames := new FrameRecord[maxFrames](_ => FrameRecord(0, []));
      frameStart, zoneCount, zoneDepth, frameHead, frameStored, totalFrames := 0, 0, 0, 0, 0, 0;
      frame, log := NewFrame(0), [];
    }

    method FrameBegin(t: nat)
      requires Valid() && frame.now <= t
      modifies this
      ensures Valid() && log == old(log)
      ensures frame == if enabled then NewFrame(t) else old(frame)
      ensures frameStart == if enabled then t else old(frameStart)
    {
      hide Inv, RingOk;
      if !enabled {
        return;
      }
      frameStart := t;
      zoneCount := 0;
      zoneDepth := 0;
      frame := NewFrame(t);
    }

    method ZoneBegin(name: string, t: nat) returns (ok: bool)
      requires Valid() && frame.now <= t
      modifies this, zones, zoneStack
      ensures Valid() && log == old(log) && frameStart == old(frameStart)
      ensures ok <==> !enabled || CanBegin(old(frame), maxZones)
      ensures frame == if enabled && ok then Begin(old(frame), name, t) else old(frame)
    {
      hide Inv, RingOk;
      if !enabled {
        return true;
      }
      if zoneCount >= maxZones || zoneDepth >= MAX_DEPTH {
        return false;
      }
      BeginKeepsInv(frame, name, t);
      ghost var es := zones[..zoneCount];
      var idx := zoneCount;
      zoneCount := zoneCount + 1;
      zones[idx] := Entry(name, t, 0, zoneDepth, false);
      zoneStack[zoneDepth] := idx;
      zoneDepth := zoneDepth + 1;
      assert zones[..zoneCount] == es + [zones[idx]];
      assert zoneStack[..zoneDepth] == frame.stack + [idx];
      frame := Begin(frame, name, t);
      ok := true;
    }

    method ZoneEnd(t: nat) returns (ok: bool)
      requires Valid() && frame.now <= t
      modifies this, zones
      ensures Valid() && log == old(log) && frameStart == old(frameStart)
      ensures ok <==> !enabled || old(frame).stack != []
      ensures enabled && ok ==>
                && old(frame).stack[|old(frame).stack| - 1] < |old(frame).zones|
                && old(frame).zones[old(frame).stack[|old(frame).stack| - 1]].start <= t
                && frame == EndZone(old(frame), t)
      ensures !(enabled && ok) ==> frame == old(frame)
    {
      hide Inv, RingOk;
      if !enabled {
        return true;
      }
      if zoneDepth == 0 {
        return false;
      }
      EndKeepsInv(frame, t);
      ghost var es, st := zones[..zoneCount], zoneStack[..zoneDepth];
      zoneDepth := zoneDepth - 1;
      var idx := zoneStack[zoneDepth];
      assert idx == st[zoneDepth] && zones[idx] == es[idx] == EntryOf(frame.zones[idx]);
      zones[idx] := zones[idx].(durationNs := t - zones[idx].startNs, closed := true);
      assert zones[..zoneCount] == es[idx := zones[idx]];
      assert zoneStack[..zoneDepth] == st[..zoneDepth];
      frame := EndZone(frame, t);
      ok := true;
    }

    method FrameEnd(t: nat)
      requires Valid() && frame.now <= t
      modifies this, frames
      ensures Valid() && frameStart == old(frameStart)
      ensures frame == if enabled then old(frame).(now := t) else old(frame)
      ensures log == if enabled then old(log) + [FrameRecord(t - old(frameStart), zones[..old(zoneCount)])]
                     else old(log)
    {
      hide Inv, RingOk;
      if !enabled {
        return;
      }
      ghost var ring := frames[..];
      var rec := FrameRecord(t - frameStart, zones[..zoneCount]);
      RingPush(ring, frameHead, frameStored, log, rec);
      LaterKeepsInv(frame, t);
      RingCount(ring, frameHead, frameStored, log);
      frames[frameHead] := rec;
      assert frames[..] == ring[frameHead := rec];
      frameHead := (frameHead + 1) % maxFrames;
      if frameStored < maxFrames {
        frameStored := frameStored + 1;
      }
      totalFrames := totalFrames + 1;
      log := log + [rec];
      frame := frame.(now := t);
    }

    /** Time of the stored frames, read from the oldest on, and their number. */
    method HistoryTime() returns (total: nat, count: nat)
      requires Valid()
      ensures count == (if |log| < maxFrames then |log| else maxFrames)
      ensures total == Sum(log[|log| - count..], FrameTime)
    {
      hide Inv, RingOk;
      total := 0;
      count := frameStored;
      RingCount(frames[..], frameHead, frameStored, log);
      var start := (frameHead + maxFrames - count) % maxFrames;
      ghost var last := log[|log| - count..];
      var i := 0;
      while i < count
        invariant 0 <= i <= count && total == SumTo(last, i, FrameTime)
      {
        var idx := (start + i) % maxFrames;
        RingReadsAt(frames[..], frameHead, frameStored, log, i, start, idx);
        AddTerm(last, i, total, frames[idx]);
        total := total + frames[idx].frameNs;
        i := i + 1;
      }
    }
  }

  lemma LaterKeepsInv(f: Frame, t: nat)
    requires Inv(f) && f.now <= t
    ensures Inv(f.(now := t))
  {
    var r := f.(now := t);
    assert TimesOk(r) && StackOk(r) && DepthsOk(r);
  }
}
