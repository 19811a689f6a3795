/**
 * The frame arena as the program runs it: three arena records updated in place by allocation,
 * growth and reset. Every method is proved to do what module FrameArenaModel computes.
 */
module FrameArena {
  import opened Basics
  import opened Bits
  import opened FrameArenaModel

  class ArenaRecord {
    var base: nat
    var capacity: nat
    var maxCapacity: nat
    var offset: nat
    var retired: seq<Chunk>
    var retiredBytes: nat
    var peakUsage: nat
    const history: array<nat>
    var historyIndex: nat
    var usageSum: nat
    var rollingAverage: nat
    ghost var model: Arena

    /** The fields are those of the model. */
    ghost predicate Coupled()
      reads this, history
    {
      && CoupledBeyondFrame(model)
      && model.offset == offset && model.retired == retired && model.retiredBytes == retiredBytes
    }

    /** The fields that outlive a frame, which clearing leaves alone. */
    ghost predicate CoupledBeyondFrame(m: Arena)
      reads this, history
    {
      && m.chunk == Chunk(base, capacity) && m.maxCapacity == maxCapacity
      && m.peakUsage == peakUsage && m.history == history[..]
      && m.historyIndex == historyIndex && m.usageSum == usageSum && m.rollingAverage == rollingAverage
    }

    constructor (base: nat, size: nat, max: nat)
      ensures Coupled() && fresh(history) && model == Fresh(base, size, max)
    {
      this.base, capacity, maxCapacity := base, size, max;
      offset, retired, retiredBytes, peakUsage := 0, [], 0, 0;
      history := new nat[WINDOW](_ => 0);
      historyIndex, usageSum, rollingAverage := 0, 0, 0;
      model := Fresh(base, size, max);
    }

    /** Switch to a new chunk; the full one is kept, its pointers stay valid until reset. */
    method GrowArena(newBase: nat, newCapacity: nat)
      requires Coupled() && newCapacity == NewCapacity(model)
      modifies this
      ensures Coupled() && model == Grow(old(model), newBase)
    {
      retired := [Chunk(base, capacity)] + retired;
      retiredBytes := retiredBytes + offset;
      base := newBase;
      capacity := newCapacity;
      offset := 0;
      model := Grow(model, newBase);
    }

    method BumpBy(n: nat) returns (p: nat)
      requires Coupled()
      modifies this
      ensures Coupled() && model == Bump(old(model), n) && p == old(base + offset)
    {
      p := base + offset;
      offset := offset + n;
      var used := retiredBytes + offset;
      if used > peakUsage {
        peakUsage := used;
      }
      model := Bump(model, n);
    }

    method UpdateRollingAverage()
      requires Coupled() && |model.history| == WINDOW && model.historyIndex < WINDOW
      requires model.usageSum >= model.history[model.historyIndex]
      modifies this, history
      ensures Coupled() && retired == old(retired)
      ensures old(model).historyIndex < |old(model).history|
      ensures old(model).usageSum >= old(model).history[old(model).historyIndex]
      ensures model == Averaged(old(model))
    {
      ghost var m := model;
      var leaving := history[historyIndex];
      var entering := retiredBytes + offset;
      history[historyIndex] := entering;
      historyIndex := (historyIndex + 1) % WINDOW;
      usageSum := usageSum - leaving + entering;
      rollingAverage := usageSum / WINDOW;
      model := Averaged(m);
    }

    /** Unmap every retired chunk, then forget what the frame allocated. */
    method ClearArena() returns (unmapped: seq<Chunk>)
      requires Coupled()
      modifies this
      ensures Coupled() && model == Cleared(old(model)) && unmapped == old(retired)
    {
      ghost var m := model;
      unmapped := [];
      while retired != []
        invariant unmapped + retired == m.retired
        invariant CoupledBeyondFrame(m)
        decreases |retired|
      {
        unmapped := unmapped + [retired[0]];
        retired := retired[1..];
      }
      retiredBytes := 0;
      offset := 0;
      model := Cleared(m);
    }

    /** What a reset does to the arena it selects. */
    method TakeBack() returns (unmapped: seq<Chunk>)
      requires Coupled() && |model.history| == WINDOW && model.historyIndex < WINDOW
      requires model.usageSum >= model.history[model.historyIndex]
      modifies this, history
      ensures old(model).historyIndex < |old(model).history|
      ensures old(model).usageSum >= old(model).history[old(model).historyIndex]
      ensures Coupled() && model == Cleared(Averaged(old(model))) && unmapped == old(model).retired
    {
      UpdateRollingAverage();
      unmapped := ClearArena();
    }
  }

  class ArenaSystem {
    const arenas: seq<ArenaRecord>
    var currentFrame: nat
    ghost var model: System

    ghost predicate Valid()
      reads this, arenas, set a | a in arenas :: a.history
    {
      && Inv(model) && |arenas| == |model.arenas| == ARENA_COUNT
      && (forall i :: 0 <= i < ARENA_COUNT ==> arenas[i].Coupled() && arenas[i].model == model.arenas[i])
      && (forall i, j :: 0 <= i < j < ARENA_COUNT ==>
            arenas[i] != arenas[j] && arenas[i].history != arenas[j].history)
      && currentFrame == model.frame % FRAME_RANGE
    }

    ghost function Footprint(): set<object>
      reads this
    {
      {this as object} + (set a: ArenaRecord | a in arenas :: a as object)
      + (set a: ArenaRecord | a in arenas :: a.history as object)
    }

    /** The mapping calls of the start gave three separate, aligned chunks. */
    constructor (configuredSize: nat, configuredMax: nat, b0: nat, b1: nat, b2: nat)
      requires BasesOk(ArenaSize(configuredSize), b0, b1, b2)
      ensures Valid() && fresh(Footprint() - {this})
      ensures var size := ArenaSize(configuredSize);
              model == Start(size, MaxSize(configuredMax, size), b0, b1, b2)
    {
      hide Inv, Fresh, BasesOk, ArenaRecord.Coupled;
      var size := ArenaSize(configuredSize);
      var max := MaxSize(configuredMax, size);
      var a0 := new ArenaRecord(b0, size, max);
      var a1 := new ArenaRecord(b1, size, max);
      var a2 := new ArenaRecord(b2, size, max);
      arenas := [a0, a1, a2];
      currentFrame := 0;
      model := Start(size, max, b0, b1, b2);
      StartInv(size, max, b0, b1, b2);
    }

    /** Allocate; None stands for the fallback to the persistent heap. `offered` is what a
        mapping call for a grown chunk would return: memory clear of all that is mapped, or
        nothing. */
    method FrameAlloc(size: nat, offered: Option<nat>) returns (p: Option<nat>)
      requires Valid()
      requires offered.Some? ==>
                 Mappable(model, Chunk(offered.value, NewCapacity(model.arenas[ArenaIndex(model.frame)])))
      modifies Footprint()
      ensures Valid() && |old(model).arenas| == ARENA_COUNT
      ensures (model, p) == Alloc(old(model), size, offered)
    {
      hide Inv, Multiple;
      ghost var m := model;
      AllocKeepsInv(m, size, offered);
      var n := Round16(size);
      var arena := arenas[currentFrame % ARENA_COUNT];
      ghost var i := ArenaIndex(m.frame);
      assert arena == arenas[i] && arena in arenas;
      if arena.offset + n > arena.capacity {
        var newCapacity := 2 * arena.capacity;
        if newCapacity > arena.maxCapacity {
          newCapacity := arena.maxCapacity;
        }
        p := None;
        if newCapacity > arena.capacity && offered.Some? {
          arena.GrowArena(offered.value, newCapacity);
          if n <= arena.capacity {
            var q := arena.BumpBy(n);
            p := Some(q);
          }
        }
      } else {
        var q := arena.BumpBy(n);
        p := Some(q);
      }
      model := Alloc(m, size, offered).0;
    }

    /** Advance the frame and take back the arena that its number selects. */
    method FrameReset() returns (unmapped: seq<Chunk>)
      requires Valid()
      modifies Footprint()
      ensures Valid() && Inv(old(model)) && model == Reset(old(model))
      ensures unmapped == old(model).arenas[ArenaIndex(old(model).frame + 1)].retired
    {
      hide Inv, Averaged, Cleared, ArenaRecord.CoupledBeyondFrame;
      ghost var m := model;
      ResetKeepsInv(m);
      ghost var i := ArenaIndex(m.frame + 1);
      ResetReady(m, i);
      FrameAdvances(m.frame);
      currentFrame := (currentFrame + 1) % FRAME_RANGE;
      var arena := arenas[currentFrame % ARENA_COUNT];
      assert arena == arenas[i] && arena in arenas && arena.history in Footprint();
      unmapped := arena.TakeBack();
      model := Reset(m);
    }

    /** Does the address lie in a current or retired chunk of any arena? */
    method IsArenaPointer(p: nat) returns (found: bool)
      requires Valid()
      ensures found <==> IsFramePointer(model, p)
    {
      hide Inv;
      if p == 0 {
        return false;
      }
      var i := 0;
      while i < ARENA_COUNT
        invariant 0 <= i <= ARENA_COUNT
        invariant forall j :: 0 <= j < i ==> !Contains(model.arenas[j], p)
      {
        var arena := arenas[i];
        ghost var m := model.arenas[i];
        if arena.base <= p < arena.base + arena.capacity {
          assert Chunks(m)[0] == m.chunk;
          return true;
        }
        var k := 0;
        while k < |arena.retired|
          invariant 0 <= k <= |arena.retired|
          invariant forall j :: 0 <= j <= k ==> !(Chunks(m)[j].base <= p < Chunks(m)[j].End())
        {
          var c := arena.retired[k];
          assert Chunks(m)[k + 1] == c;
          if c.base <= p < c.base + c.capacity {
            return true;
          }
          k := k + 1;
        }
        i := i + 1;
      }
      return false;
    }
  }
}
