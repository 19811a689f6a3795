/**
 * The lock-free free list of one size class as a step machine: any number of threads, each
 * with its own program counter, interleaved in any order. Addresses are numbers, 0 is NULL.
 */
module TreiberStack {

  type Block = nat
  type Thread = nat

  const NULL: nat := 0
  /** The counter is an unsigned machine word. */
  const COUNTER_RANGE := 0x1_0000_0000_0000_0000

  /** Where a thread stands. `seen` is its copy of the head, `after` the successor it read. */
  datatype PC =
    | Idle
    | PushLoad(block: Block)
    | PushLink(block: Block, seen: Block)
    | PushCas(block: Block, seen: Block)
    | PushCount
    | PopLoad
    | PopNext(seen: Block)
    | PopCas(seen: Block, after: Block)
    | PopCount(block: Block)
    | PopClear(block: Block)

  /** `stack` is the abstract stack, changed exactly at a successful compare-and-swap; `held`
      are the blocks in the hands of the callers. */
  datatype State = State(
    head: Block,
    next: map<Block, Block>,
    count: nat,
    pcs: map<Thread, PC>,
    stack: seq<Block>,
    held: set<Block>)

  /** `spurious` lets a weak compare-and-swap fail although the head is unchanged. A caller
      may write anything into the memory of a block it holds. */
  datatype Action =
    | StartPush(t: Thread, b: Block)
    | StartPop(t: Thread)
    | Run(t: Thread, spurious: bool)
    | CallerWrites(b: Block, v: Block)

  function At(s: State, t: Thread): PC {
    if t in s.pcs then s.pcs[t] else Idle
  }

  function Goto(s: State, t: Thread, pc: PC): State {
    s.(pcs := s.pcs[t := pc])
  }

  function Tail(xs: seq<Block>): seq<Block> {
    if xs == [] then [] else xs[1..]
  }

  function Wrap(n: int): nat {
    n % COUNTER_RANGE
  }

  /** One atomic step of thread t. */
  function RunStep(s: State, t: Thread, spurious: bool): State {
    match At(s, t)
    case Idle => s
    case PushLoad(b) => Goto(s, t, PushLink(b, s.head))
    case PushLink(b, seen) => Goto(s.(next := s.next[b := seen]), t, PushCas(b, seen))
    case PushCas(b, seen) =>
      if s.head == seen && !spurious then
        Goto(s.(head := b, stack := [b] + s.stack), t, PushCount)
      else Goto(s, t, PushLink(b, s.head))
    case PushCount => Goto(s.(count := Wrap(s.count + 1)), t, Idle)
    case PopLoad => PopFrom(s, t)
    case PopNext(seen) => Goto(s, t, PopCas(seen, if seen in s.next then s.next[seen] else NULL))
    case PopCas(seen, after) =>
      if s.head == seen && !spurious then
        Goto(s.(head := after, stack := Tail(s.stack)), t, PopCount(seen))
      else PopFrom(s, t)
    case PopCount(b) => Goto(s.(count := Wrap(s.count - 1)), t, PopClear(b))
    case PopClear(b) => Goto(s.(next := s.next[b := NULL], held := s.held + {b}), t, Idle)
  }

  /** A pop goes on with the current head, or ends empty-handed. */
  function PopFrom(s: State, t: Thread): State {
    Goto(s, t, if s.head == NULL then Idle else PopNext(s.head))
  }

  /** Actions that are not possible in a state leave it as it is. */
  function Next(s: State, a: Action): State {
    match a
    case StartPush(t, b) =>
      if At(s, t) == Idle && b in s.held then Goto(s.(held := s.held - {b}), t, PushLoad(b)) else s
    case StartPop(t) => if At(s, t) == Idle then Goto(s, t, PopLoad) else s
    case Run(t, spurious) => RunStep(s, t, spurious)
    case CallerWrites(b, v) => if b in s.held then s.(next := s.next[b := v]) else s
  }

  function Exec(s: State, actions: seq<Action>): State
    decreases |actions|
  {
    if actions == [] then s else Exec(Next(s, actions[0]), actions[1..])
  }

  function Init(blocks: set<Block>): State {
    State(NULL, map b | b in blocks :: NULL, 0, map[], [], blocks)
  }

  // ----- the invariant

  function Below(xs: seq<Block>, k: nat): Block {
    if k < |xs| then xs[k] else NULL
  }

  ghost predicate LinkAt(s: State, k: nat)
    requires k < |s.stack|
  {
    s.stack[k] != NULL && s.stack[k] in s.next && s.next[s.stack[k]] == Below(s.stack, k + 1)
  }

  /** The chain from `head` is acyclic and runs through exactly the abstract stack. */
  ghost predicate ChainIsStack(s: State) {
    && s.head == Below(s.stack, 0)
    && (forall k :: 0 <= k < |s.stack| ==> LinkAt(s, k))
    && (forall j, k :: 0 <= j < k < |s.stack| ==> s.stack[j] != s.stack[k])
  }

  predicate Owns(pc: PC, b: Block) {
    match pc
    case PushLoad(x) => x == b
    case PushLink(x, _) => x == b
    case PushCas(x, _) => x == b
    case PopCount(x) => x == b
    case PopClear(x) => x == b
    case _ => false
  }

  ghost predicate OwnedBy(s: State, t: Thread, b: Block) {
    t in s.pcs && Owns(s.pcs[t], b)
  }

  /** A block has at most one place: in the stack, with its callers, or with one thread. */
  ghost predicate OnePlace(s: State) {
    && (forall b :: b in s.held ==> b != NULL && b !in s.stack)
    && (forall t, b :: OwnedBy(s, t, b) ==> b != NULL && b !in s.held && b !in s.stack)
    && (forall t, u, b :: OwnedBy(s, t, b) && OwnedBy(s, u, b) ==> t == u)
  }

  predicate InPopWindow(pc: PC) {
    pc.PopNext? || pc.PopCas?
  }

  ghost predicate PcOk(s: State, pc: PC) {
    match pc
    case PushCas(b, seen) => b in s.next && s.next[b] == seen
    case PopNext(seen) => seen != NULL
    case PopCas(seen, _) => seen != NULL
    case _ => true
  }

  ghost predicate PcsOk(s: State) {
    forall t :: t in s.pcs ==> PcOk(s, s.pcs[t])
  }

  /** A pop swaps the head for a successor that is no longer the successor of the head. */
  predicate Stale(s: State, a: Action) {
    && a.Run? && !a.spurious && At(s, a.t).PopCas?
    && s.head == At(s, a.t).seen
    && !(s.head in s.next && s.next[s.head] == At(s, a.t).after)
  }

  function Adding(s: State): set<Thread> {
    set t | t in s.pcs && s.pcs[t].PushCount?
  }

  function Subtracting(s: State): set<Thread> {
    set t | t in s.pcs && s.pcs[t].PopCount?
  }

  /** The counter is the stack length, less the pushes and plus the pops that have swapped
      the head but not yet updated the counter. */
  ghost predicate CountOk(s: State) {
    s.count == Wrap(Balance(s))
  }

  ghost predicate Shape(s: State) {
    ChainIsStack(s) && OnePlace(s) && PcsOk(s)
  }

  ghost predicate Inv(s: State) {
    Shape(s) && CountOk(s)
  }

  /** No block is lost: every block is in the stack, with its callers or with a thread. */
  ghost predicate Placed(s: State, b: Block) {
    b in s.stack || b in s.held || exists t :: OwnedBy(s, t, b)
  }

  ghost predicate AllPlaced(s: State, blocks: set<Block>) {
    forall b :: b in blocks ==> Placed(s, b)
  }

  function Popping(s: State): set<Thread> {
    set t | t in s.pcs && InPopWindow(s.pcs[t])
  }

  lemma InitInv(blocks: set<Block>)
    requires NULL !in blocks
    ensures Inv(Init(blocks)) && AllPlaced(Init(blocks), blocks)
  {
    var s := Init(blocks);
    assert Adding(s) == {} && Subtracting(s) == {};
  }

  // ----- the counter

  function Balance(s: State): int {
    |s.stack| - |Adding(s)| + |Subtracting(s)|
  }

  lemma MoveBalance(s: State, t: Thread, pc: PC)
    ensures Balance(Goto(s, t, pc)) == Balance(s)
            + (if At(s, t).PushCount? then 1 else 0) - (if pc.PushCount? then 1 else 0)
            - (if At(s, t).PopCount? then 1 else 0) + (if pc.PopCount? then 1 else 0)
  {
    var r := Goto(s, t, pc);
    assert Adding(s) - {t} == Adding(r) - {t} && Subtracting(s) - {t} == Subtracting(r) - {t};
    WithAndWithout(Adding(s), t);
    WithAndWithout(Adding(r), t);
    WithAndWithout(Subtracting(s), t);
    WithAndWithout(Subtracting(r), t);
  }

  lemma WithAndWithout(x: set<Thread>, t: Thread)
    ensures |x| == |x - {t}| + if t in x then 1 else 0
  {
    if t in x {
      assert x == (x - {t}) + {t};
    } else {
      assert x == x - {t};
    }
  }

  lemma WrapStep(n: int, d: int)
    ensures Wrap(Wrap(n) + d) == Wrap(n + d)
  {
  }

  lemma CountStep(s: State, t: Thread, spurious: bool)
    requires CountOk(s)
    requires At(s, t).PopCas? && !spurious && s.head == At(s, t).seen ==> s.stack != []
    ensures CountOk(RunStep(s, t, spurious))
  {
    var r := RunStep(s, t, spurious);
    if At(s, t) != Idle {
      MoveBalance(s, t, r.pcs[t]);
      SameCounts(r, Goto(s, t, r.pcs[t]));
      hide Adding, Subtracting, Wrap;
      WrapStep(Balance(s), 1);
      WrapStep(Balance(s), -1);
    }
  }

  lemma SameCounts(r: State, m: State)
    requires r.pcs == m.pcs
    ensures Balance(r) - |r.stack| == Balance(m) - |m.stack|
  {
    assert Adding(r) == Adding(m) && Subtracting(r) == Subtracting(m);
  }

  // ----- every step keeps the invariant

  /** Moving a program counter that gains no block keeps everyone's place. */
  lemma GotoKeepsPlaces(s: State, t: Thread, pc: PC)
    requires OnePlace(s) && forall b :: Owns(pc, b) ==> OwnedBy(s, t, b)
    ensures OnePlace(Goto(s, t, pc))
  {
    var r := Goto(s, t, pc);
    forall u, b | OwnedBy(r, u, b)
      ensures OwnedBy(s, u, b)
    {
    }
  }

  lemma GotoKeepsPcs(s: State, t: Thread, pc: PC)
    requires PcsOk(s) && PcOk(s, pc)
    ensures PcsOk(Goto(s, t, pc))
  {
    var r := Goto(s, t, pc);
    forall u | u in r.pcs
      ensures PcOk(r, r.pcs[u])
    {
      assert u != t ==> PcOk(s, s.pcs[u]);
    }
  }

  /** Writing the link of a block outside the stack disturbs neither the chain nor anyone
      who does not own that block. */
  lemma WriteOutside(s: State, b: Block, v: Block)
    requires ChainIsStack(s) && b !in s.stack
    ensures ChainIsStack(s.(next := s.next[b := v]))
  {
    var r := s.(next := s.next[b := v]);
    forall k | 0 <= k < |r.stack|
      ensures LinkAt(r, k)
    {
      assert LinkAt(s, k) && s.stack[k] in s.stack;
    }
  }

  lemma WriteKeepsPcs(s: State, b: Block, v: Block)
    requires PcsOk(s) && b !in s.stack
    requires forall t :: t in s.pcs && s.pcs[t].PushCas? ==> s.pcs[t].block != b
    ensures PcsOk(s.(next := s.next[b := v]))
  {
    var r := s.(next := s.next[b := v]);
    forall t | t in r.pcs
      ensures PcOk(r, r.pcs[t])
    {
      assert PcOk(s, s.pcs[t]);
    }
  }

  lemma LoadStep(s: State, t: Thread)
    requires Shape(s) && t in s.pcs
    ensures var r := PopFrom(s, t);
            Shape(r)
  {
    var pc := if s.head == NULL then Idle else PopNext(s.head);
    assert |s.stack| > 0 ==> LinkAt(s, 0);
    MoveStep(s, t, pc);
  }

  lemma LinkStep(s: State, t: Thread)
    requires Shape(s) && t in s.pcs && s.pcs[t].PushLink?
    ensures var r := RunStep(s, t, false);
            Shape(r)
  {
    var b, v := s.pcs[t].block, s.pcs[t].seen;
    assert OwnedBy(s, t, b);
    WriteOutside(s, b, v);
    forall u | u in s.pcs && s.pcs[u].PushCas?
      ensures s.pcs[u].block != b
    {
      assert OwnedBy(s, u, s.pcs[u].block);
    }
    WriteKeepsPcs(s, b, v);
    var m := s.(next := s.next[b := v]);
    assert forall u, c :: OwnedBy(m, u, c) ==> OwnedBy(s, u, c);
    GotoKeepsPlaces(m, t, PushCas(b, v));
    GotoKeepsPcs(m, t, PushCas(b, v));
    var r := RunStep(s, t, false);
    forall k | 0 <= k < |r.stack|
      ensures LinkAt(r, k)
    {
      assert LinkAt(m, k);
    }
  }

  /** A successful push puts its block, linked to the seen head, on top of the stack. */
  lemma PushStep(s: State, t: Thread)
    requires Shape(s)
    requires t in s.pcs && s.pcs[t].PushCas? && s.head == s.pcs[t].seen
    ensures var r := RunStep(s, t, false);
            Shape(r)
  {
    var b := s.pcs[t].block;
    var r := RunStep(s, t, false);
    assert OwnedBy(s, t, b) && PcOk(s, s.pcs[t]);
    forall k | 0 <= k < |r.stack|
      ensures LinkAt(r, k)
    {
      if k > 0 {
        assert LinkAt(s, k - 1);
      }
    }
    forall u, c | OwnedBy(r, u, c)
      ensures OwnedBy(s, u, c) && c != b
    {
      assert u != t;
      assert OwnedBy(s, u, c);
      assert c == b ==> OwnedBy(s, u, b);
    }
    forall u | u in r.pcs
      ensures PcOk(r, r.pcs[u])
    {
      assert u != t ==> PcOk(s, s.pcs[u]);
    }
  }

  lemma HeadOnTop(s: State)
    requires ChainIsStack(s) && s.head != NULL
    ensures s.stack != [] && s.stack[0] == s.head && s.head in s.next && s.next[s.head] == Below(s.stack, 1)
  {
    assert LinkAt(s, 0);
  }

  /** A successful pop takes the top of the stack, unless its successor is stale. */
  lemma PopStep(s: State, t: Thread)
    requires Shape(s)
    requires t in s.pcs && s.pcs[t].PopCas? && s.head == s.pcs[t].seen && !Stale(s, Run(t, false))
    ensures s.stack != [] && s.stack[0] == s.pcs[t].seen
    ensures var r := RunStep(s, t, false);
            Shape(r) && s.stack == [s.pcs[t].seen] + r.stack
  {
    var b := s.pcs[t].seen;
    var r := RunStep(s, t, false);
    assert PcOk(s, s.pcs[t]);
    HeadOnTop(s);
    assert s.stack == [b] + r.stack;
    forall k | 0 <= k < |r.stack|
      ensures LinkAt(r, k) && r.stack[k] != b
    {
      assert LinkAt(s, k + 1);
    }
    forall u, c | OwnedBy(r, u, c)
      ensures (u == t && c == b) || OwnedBy(s, u, c)
    {
    }
    forall u | u in r.pcs
      ensures PcOk(r, r.pcs[u])
    {
      assert u != t ==> PcOk(s, s.pcs[u]);
    }
  }

  /** A stale swap breaks the chain at once. */
  lemma StaleBreaks(s: State, a: Action)
    requires Inv(s) && Stale(s, a)
    ensures !ChainIsStack(Next(s, a))
  {
    assert PcOk(s, s.pcs[a.t]);
    HeadOnTop(s);
  }

  lemma ClearStep(s: State, t: Thread)
    requires Shape(s) && t in s.pcs && s.pcs[t].PopClear?
    ensures var r := RunStep(s, t, false);
            Shape(r)
  {
    var b := s.pcs[t].block;
    assert OwnedBy(s, t, b);
    WriteOutside(s, b, NULL);
    forall u | u in s.pcs && s.pcs[u].PushCas?
      ensures s.pcs[u].block != b
    {
      assert OwnedBy(s, u, s.pcs[u].block);
    }
    WriteKeepsPcs(s, b, NULL);
    var m := s.(next := s.next[b := NULL]);
    var r := RunStep(s, t, false);
    forall k | 0 <= k < |r.stack|
      ensures LinkAt(r, k)
    {
      assert LinkAt(m, k);
    }
    forall u, c | OwnedBy(r, u, c)
      ensures OwnedBy(s, u, c) && c != b
    {
      assert u != t;
      assert OwnedBy(s, u, c);
      assert c == b ==> OwnedBy(s, u, b);
    }
    forall u | u in r.pcs
      ensures PcOk(r, r.pcs[u])
    {
      assert u != t ==> PcOk(m, m.pcs[u]);
    }
  }

  /** A step that only moves a program counter, with the same block in hand. */
  lemma MoveStep(s: State, t: Thread, pc: PC)
    requires Shape(s) && PcOk(s, pc)
    requires forall b :: Owns(pc, b) ==> OwnedBy(s, t, b)
    ensures var r := Goto(s, t, pc);
            Shape(r)
  {
    GotoKeepsPlaces(s, t, pc);
    GotoKeepsPcs(s, t, pc);
    forall k | 0 <= k < |s.stack|
      ensures LinkAt(Goto(s, t, pc), k)
    {
      assert LinkAt(s, k);
    }
  }

  lemma CounterChange(s: State, n: nat)
    requires Shape(s)
    ensures var r := s.(count := n);
            Shape(r)
  {
    var r := s.(count := n);
    forall k | 0 <= k < |s.stack|
      ensures LinkAt(r, k)
    {
      assert LinkAt(s, k);
    }
    forall t, b | OwnedBy(r, t, b)
      ensures OwnedBy(s, t, b)
    {
    }
    forall t | t in r.pcs
      ensures PcOk(r, r.pcs[t])
    {
      assert PcOk(s, s.pcs[t]);
    }
  }

  lemma PushKeepsShape(s: State, t: Thread, spurious: bool)
    requires Shape(s) && t in s.pcs
    requires s.pcs[t].PushLoad? || s.pcs[t].PushLink? || s.pcs[t].PushCas? || s.pcs[t].PushCount?
    ensures Shape(RunStep(s, t, spurious))
  {
    var pc := s.pcs[t];
    match pc {
      case PushLoad(b) =>
        assert OwnedBy(s, t, b);
        MoveStep(s, t, PushLink(b, s.head));
      case PushLink(b, seen) => LinkStep(s, t);
      case PushCas(b, seen) =>
        if s.head == seen && !spurious {
          PushStep(s, t);
        } else {
          assert OwnedBy(s, t, b);
          MoveStep(s, t, PushLink(b, s.head));
        }
      case PushCount =>
        CounterChange(s, Wrap(s.count + 1));
        MoveStep(s.(count := Wrap(s.count + 1)), t, Idle);
    }
  }

  lemma PopKeepsShape(s: State, t: Thread, spurious: bool)
    requires Shape(s) && t in s.pcs && !Stale(s, Run(t, spurious))
    requires s.pcs[t].PopLoad? || InPopWindow(s.pcs[t]) || s.pcs[t].PopCount? || s.pcs[t].PopClear?
    ensures Shape(RunStep(s, t, spurious))
    ensures s.pcs[t].PopCas? && !spurious && s.head == s.pcs[t].seen ==> s.stack != []
  {
    var pc := s.pcs[t];
    assert PcOk(s, pc);
    match pc {
      case PopLoad => LoadStep(s, t);
      case PopNext(seen) => MoveStep(s, t, PopCas(seen, if seen in s.next then s.next[seen] else NULL));
      case PopCas(seen, after) =>
        if s.head == seen && !spurious {
          PopStep(s, t);
        } else {
          LoadStep(s, t);
        }
      case PopCount(b) =>
        assert OwnedBy(s, t, b);
        CounterChange(s, Wrap(s.count - 1));
        assert OwnedBy(s.(count := Wrap(s.count - 1)), t, b);
        MoveStep(s.(count := Wrap(s.count - 1)), t, PopClear(b));
      case PopClear(b) => ClearStep(s, t);
    }
  }

  lemma RunKeepsInv(s: State, t: Thread, spurious: bool)
    requires Inv(s) && !Stale(s, Run(t, spurious))
    ensures Inv(RunStep(s, t, spurious))
  {
    hide Shape, CountOk;
    if t in s.pcs && s.pcs[t] != Idle {
      var pc := s.pcs[t];
      if pc.PushLoad? || pc.PushLink? || pc.PushCas? || pc.PushCount? {
        PushKeepsShape(s, t, spurious);
      } else {
        PopKeepsShape(s, t, spurious);
      }
      CountStep(s, t, spurious);
    }
  }

  // ----- caller actions

  lemma StartPushKeepsInv(s: State, t: Thread, b: Block)
    requires Inv(s) && At(s, t) == Idle && b in s.held
    ensures Inv(Next(s, StartPush(t, b)))
  {
    var r := Next(s, StartPush(t, b));
    forall k | 0 <= k < |r.stack|
      ensures LinkAt(r, k)
    {
      assert LinkAt(s, k);
    }
    forall u, c | OwnedBy(r, u, c)
      ensures if u == t then c == b else OwnedBy(s, u, c) && c != b
    {
      assert u != t ==> OwnedBy(s, u, c);
    }
    forall u | u in r.pcs
      ensures PcOk(r, r.pcs[u])
    {
      assert u != t ==> PcOk(s, s.pcs[u]);
    }
    MoveBalance(s, t, PushLoad(b));
    SameCounts(r, Goto(s, t, PushLoad(b)));
  }

  lemma CallerWritesKeepsInv(s: State, b: Block, v: Block)
    requires Inv(s) && b in s.held
    ensures Inv(Next(s, CallerWrites(b, v)))
  {
    var r := Next(s, CallerWrites(b, v));
    WriteOutside(s, b, v);
    forall u | u in s.pcs && s.pcs[u].PushCas?
      ensures s.pcs[u].block != b
    {
      assert OwnedBy(s, u, s.pcs[u].block);
    }
    WriteKeepsPcs(s, b, v);
    forall u, c | OwnedBy(r, u, c)
      ensures OwnedBy(s, u, c)
    {
    }
    SameCounts(r, s);
  }

  lemma NextKeepsInv(s: State, a: Action)
    requires Inv(s) && !Stale(s, a)
    ensures Inv(Next(s, a))
  {
    match a
    case StartPush(t, b) =>
      if At(s, t) == Idle && b in s.held {
        StartPushKeepsInv(s, t, b);
      }
    case StartPop(t) =>
      if At(s, t) == Idle {
        MoveStep(s, t, PopLoad);
        MoveBalance(s, t, PopLoad);
      }
    case Run(t, spurious) => RunKeepsInv(s, t, spurious);
    case CallerWrites(b, v) =>
      if b in s.held {
        CallerWritesKeepsInv(s, b, v);
      }
  }

  lemma StackedKept(s: State, a: Action, b: Block)
    requires Inv(s) && !Stale(s, a) && b in s.stack
    ensures Placed(Next(s, a), b)
  {
    var r := Next(s, a);
    if a.Run? && At(s, a.t).PopCas? && s.head == At(s, a.t).seen && !a.spurious {
      PopStep(s, a.t);
      assert b == s.stack[0] ==> OwnedBy(r, a.t, b);
    }
  }

  lemma HeldKept(s: State, a: Action, b: Block)
    requires b in s.held
    ensures Placed(Next(s, a), b)
  {
    var r := Next(s, a);
    assert a.StartPush? && b == a.b && b !in r.held ==> OwnedBy(r, a.t, b);
  }

  lemma OwnedKept(s: State, a: Action, t: Thread, b: Block)
    requires OwnedBy(s, t, b)
    ensures Placed(Next(s, a), b)
  {
    var r := Next(s, a);
    if a.Run? && a.t == t && s.pcs[t].PushCas? && r.pcs[t].PushCount? {
      assert r.stack[0] == b;
    } else if !(a.Run? && a.t == t && s.pcs[t].PopClear?) {
      assert OwnedBy(r, t, b);
    }
  }

  /** No step loses a block. */
  lemma NextKeepsPlaced(s: State, a: Action, b: Block)
    requires Inv(s) && !Stale(s, a) && Placed(s, b)
    ensures Placed(Next(s, a), b)
  {
    hide Inv, Next;
    if b in s.stack {
      StackedKept(s, a, b);
    } else if b in s.held {
      HeldKept(s, a, b);
    } else {
      var t :| OwnedBy(s, t, b);
      OwnedKept(s, a, t, b);
    }
  }

  // ----- no operation gives up

  predicate InPop(pc: PC) {
    pc.PopLoad? || InPopWindow(pc)
  }

  predicate InPush(pc: PC) {
    pc.PushLoad? || pc.PushLink? || pc.PushCas?
  }

  /** A pop ends empty-handed only when the stack is empty. */
  lemma PopGivesUpOnlyEmpty(s: State, t: Thread, spurious: bool)
    requires Inv(s) && InPop(At(s, t)) && At(RunStep(s, t, spurious), t) == Idle
    ensures s.stack == [] && RunStep(s, t, spurious).stack == []
  {
    assert ChainIsStack(s);
    hide Inv;
    if s.stack != [] {
      StackedHead(s);
    }
  }

  /** A pop that starts looking gives up at once exactly when the stack is empty. */
  lemma LookGivesUpIffEmpty(s: State, t: Thread, spurious: bool)
    requires Inv(s) && At(s, t) == PopLoad
    ensures At(RunStep(s, t, spurious), t) == Idle <==> s.stack == []
  {
    if s.stack != [] {
      StackedHead(s);
    }
  }

  lemma StackedHead(s: State)
    requires ChainIsStack(s) && s.stack != []
    ensures s.head == s.stack[0] != NULL
  {
    assert LinkAt(s, 0);
  }

  /** A pop leaves its window with a block only by taking that block off the stack; from then
      on it carries the block to the caller. */
  lemma PopTakesOrGoesOn(s: State, t: Thread, spurious: bool)
    requires Inv(s) && InPop(At(s, t)) && !Stale(s, Run(t, spurious))
    ensures var r := RunStep(s, t, spurious);
            || (InPop(At(r, t)) && r.stack == s.stack)
            || (At(r, t) == Idle && s.stack == [] == r.stack)
            || (exists b :: At(r, t) == PopCount(b) && s.stack == [b] + r.stack)
  {
    var r := RunStep(s, t, spurious);
    assert Shape(s);
    hide Inv;
    if At(r, t) == Idle {
      StackedOrEmpty(s);
    } else if At(r, t).PopCount? {
      PopStep(s, t);
      assert At(r, t) == PopCount(At(s, t).seen);
    }
  }

  lemma StackedOrEmpty(s: State)
    requires Shape(s) && s.head == NULL
    ensures s.stack == []
  {
    if s.stack != [] {
      StackedHead(s);
    }
  }

  /** A push ends only after its block has entered the stack. */
  lemma PushEntersOrGoesOn(s: State, t: Thread, spurious: bool)
    requires InPush(At(s, t))
    ensures var r, b := RunStep(s, t, spurious), At(s, t).block;
            || (InPush(At(r, t)) && At(r, t).block == b && r.stack == s.stack)
            || (At(r, t) == PushCount && r.stack == [b] + s.stack)
  {
  }

  /** A swap that does not fail by chance fails only because the head has changed. */
  lemma SwapFailsOnlyIfChanged(s: State, t: Thread)
    requires At(s, t).PopCas? || At(s, t).PushCas?
    ensures var r := At(RunStep(s, t, false), t);
            (r.PopCount? || r.PushCount?) <==> s.head == At(s, t).seen
  {
  }

  /** The block that a pop has taken is what its caller gets. */
  lemma TakenIsReturned(s: State, t: Thread, spurious: bool)
    ensures At(s, t).PopCount? ==>
              var r := RunStep(s, t, spurious);
              At(r, t) == PopClear(At(s, t).block) && r.held == s.held && r.stack == s.stack
    ensures At(s, t).PopClear? ==>
              var r := RunStep(s, t, spurious);
              At(r, t) == Idle && r.held == s.held + {At(s, t).block} && r.stack == s.stack
  {
  }

  // ----- whole runs

  ghost predicate Safe(s: State, blocks: set<Block>) {
    ChainIsStack(s) && OnePlace(s) && AllPlaced(s, blocks) && CountOk(s)
  }

  predicate NeverStale(s: State, actions: seq<Action>)
    decreases |actions|
  {
    actions != [] ==> !Stale(s, actions[0]) && NeverStale(Next(s, actions[0]), actions[1..])
  }

  /** Every state of the run is safe. */
  ghost predicate AlwaysSafe(s: State, actions: seq<Action>, blocks: set<Block>)
    decreases |actions|
  {
    Safe(s, blocks) && (actions != [] ==> AlwaysSafe(Next(s, actions[0]), actions[1..], blocks))
  }

  lemma NextKeepsAllPlaced(s: State, a: Action, blocks: set<Block>)
    requires Inv(s) && !Stale(s, a) && AllPlaced(s, blocks)
    ensures AllPlaced(Next(s, a), blocks)
  {
    hide Inv, Next, Stale, Placed;
    forall b | b in blocks
      ensures Placed(Next(s, a), b)
    {
      NextKeepsPlaced(s, a, b);
    }
  }

  /** Every interleaving without a stale swap, from any safe point on: the chain is the
      abstract stack, every block is in exactly one place, and the counter is exact up to the
      updates still to come. */
  lemma {:induction false} RunIsSafe(s: State, actions: seq<Action>, blocks: set<Block>)
    requires Inv(s) && AllPlaced(s, blocks) && NeverStale(s, actions)
    ensures Inv(Exec(s, actions)) && AlwaysSafe(s, actions, blocks) && Safe(Exec(s, actions), blocks)
    decreases |actions|
  {
    assert Safe(s, blocks);
    hide Inv, Next, Stale, Safe, AllPlaced;
    if actions != [] {
      NextKeepsInv(s, actions[0]);
      NextKeepsAllPlaced(s, actions[0], blocks);
      RunIsSafe(Next(s, actions[0]), actions[1..], blocks);
    }
  }

  lemma {:induction false} UnsafeWhenStale(s: State, actions: seq<Action>, blocks: set<Block>)
    requires Inv(s) && AllPlaced(s, blocks) && AlwaysSafe(s, actions, blocks)
    ensures NeverStale(s, actions)
    decreases |actions|
  {
    hide Inv, Next, Stale, AllPlaced;
    if actions != [] {
      SafeIsNotStale(s, actions[0]);
      NextKeepsInv(s, actions[0]);
      NextKeepsAllPlaced(s, actions[0], blocks);
      UnsafeWhenStale(Next(s, actions[0]), actions[1..], blocks);
    }
  }

  lemma SafeIsNotStale(s: State, a: Action)
    requires Inv(s) && ChainIsStack(Next(s, a))
    ensures !Stale(s, a)
  {
    if Stale(s, a) {
      StaleBreaks(s, a);
    }
  }

  /** Over every run, with any number of pops in flight: all states are safe exactly when no
      pop swaps in a stale successor. */
  lemma SafeIffNeverStale(blocks: set<Block>, actions: seq<Action>)
    requires NULL !in blocks
    ensures AlwaysSafe(Init(blocks), actions, blocks) <==> NeverStale(Init(blocks), actions)
  {
    InitInv(blocks);
    hide Inv, Init, AllPlaced;
    if NeverStale(Init(blocks), actions) {
      RunIsSafe(Init(blocks), actions, blocks);
    }
    if AlwaysSafe(Init(blocks), actions, blocks) {
      UnsafeWhenStale(Init(blocks), actions, blocks);
    }
  }

  // ----- any number of pops, as long as no block comes back too early

  /** Thread u has read a successor of block b and is about to swap. */
  ghost predicate Expects(s: State, u: Thread, b: Block) {
    u in s.pcs && s.pcs[u].PopCas? && s.pcs[u].seen == b
  }

  /** A push puts back a block while some pop still expects it with another successor. */
  ghost predicate Reuses(s: State, a: Action) {
    && a.Run? && !a.spurious && At(s, a.t).PushCas? && s.head == At(s, a.t).seen
    && exists u :: Expects(s, u, At(s, a.t).block) && s.pcs[u].after != s.head
  }

  ghost predicate NeverReuses(s: State, actions: seq<Action>)
    decreases |actions|
  {
    actions != [] ==> !Reuses(s, actions[0]) && NeverReuses(Next(s, actions[0]), actions[1..])
  }

  /** Whatever a pop expects is right, if the block is in the stack at all. */
  ghost predicate ExpectsRight(s: State, u: Thread) {
    u in s.pcs && s.pcs[u].PopCas? && s.pcs[u].seen in s.stack ==>
      s.pcs[u].seen in s.next && s.next[s.pcs[u].seen] == s.pcs[u].after
  }

  ghost predicate LinksFresh(s: State) {
    forall u :: u in s.pcs ==> ExpectsRight(s, u)
  }

  lemma FreshIsNotStale(s: State, a: Action)
    requires Inv(s) && LinksFresh(s)
    ensures !Stale(s, a)
  {
    if a.Run? && At(s, a.t).PopCas? && s.head == At(s, a.t).seen {
      assert PcOk(s, s.pcs[a.t]) && ExpectsRight(s, a.t);
      HeadOnTop(s);
    }
  }

  /** What a thread expects stays right under every step but such a push. */
  lemma ExpectationKept(s: State, a: Action, u: Thread)
    requires Inv(s) && LinksFresh(s) && !Reuses(s, a)
    ensures ExpectsRight(Next(s, a), u)
  {
    hide Inv, Reuses, LinksFresh;
    if u in Next(s, a).pcs && Next(s, a).pcs[u].PopCas? && Next(s, a).pcs[u].seen in Next(s, a).stack {
      if a.Run? && a.t == u {
        OwnReadIsRight(s, u, a.spurious);
      } else {
        FreshFor(s, u);
        OtherKeepsLink(s, a, u);
      }
    }
  }

  lemma FreshFor(s: State, u: Thread)
    requires LinksFresh(s)
    ensures ExpectsRight(s, u)
  {
  }

  /** A thread that has just read a link of the stack has it right. */
  lemma OwnReadIsRight(s: State, u: Thread, spurious: bool)
    requires Inv(s)
    requires var r := RunStep(s, u, spurious);
             u in r.pcs && r.pcs[u].PopCas? && r.pcs[u].seen in r.stack
    ensures ExpectsRight(RunStep(s, u, spurious), u)
  {
    StackedHasLink(s, RunStep(s, u, spurious).pcs[u].seen);
  }

  lemma StackedHasLink(s: State, b: Block)
    requires ChainIsStack(s) && b in s.stack
    ensures b in s.next
  {
    var k :| 0 <= k < |s.stack| && s.stack[k] == b;
    assert LinkAt(s, k);
  }

  lemma OtherKeepsLink(s: State, a: Action, u: Thread)
    requires Inv(s) && ExpectsRight(s, u) && !Reuses(s, a) && !(a.Run? && a.t == u)
    requires u in s.pcs && s.pcs[u].PopCas? && s.pcs[u].seen in Next(s, a).stack
    ensures var b := s.pcs[u].seen;
            b in Next(s, a).next && Next(s, a).next[b] == s.pcs[u].after
  {
    var b := s.pcs[u].seen;
    if a.Run? && At(s, a.t).PushCas? && b !in s.stack {
      assert Expects(s, u, b);
      assert PcOk(s, s.pcs[a.t]);
    } else if a.Run? && At(s, a.t) != Idle {
      assert b in s.stack;
      assert Owns(s.pcs[a.t], b) ==> OwnedBy(s, a.t, b);
    }
  }

  lemma NextKeepsFresh(s: State, a: Action)
    requires Inv(s) && LinksFresh(s) && !Reuses(s, a)
    ensures LinksFresh(Next(s, a))
  {
    hide Inv, Next, Reuses, ExpectsRight;
    forall u | u in Next(s, a).pcs
      ensures ExpectsRight(Next(s, a), u)
    {
      ExpectationKept(s, a, u);
    }
  }

  lemma {:induction false} NoReuseNoStale(s: State, actions: seq<Action>)
    requires Inv(s) && LinksFresh(s) && NeverReuses(s, actions)
    ensures NeverStale(s, actions)
    decreases |actions|
  {
    hide Inv, Next, Stale, Reuses, LinksFresh;
    if actions != [] {
      FreshIsNotStale(s, actions[0]);
      NextKeepsInv(s, actions[0]);
      NextKeepsFresh(s, actions[0]);
      NoReuseNoStale(Next(s, actions[0]), actions[1..]);
    }
  }

  /** Any number of pops may be in flight: all runs are safe in which no push puts back a
      block that some pop still expects with another successor. */
  lemma NoReuseIsSafe(blocks: set<Block>, actions: seq<Action>)
    requires NULL !in blocks && NeverReuses(Init(blocks), actions)
    ensures AlwaysSafe(Init(blocks), actions, blocks)
  {
    InitInv(blocks);
    assert LinksFresh(Init(blocks));
    hide Inv, Init, AllPlaced, LinksFresh;
    NoReuseNoStale(Init(blocks), actions);
    RunIsSafe(Init(blocks), actions, blocks);
  }

  // ----- one pop at a time

  /** In every state of the run at most `p` threads are between reading the head and
      swapping it out. */
  predicate PopsAtMost(s: State, actions: seq<Action>, p: nat)
    decreases |actions|
  {
    |Popping(s)| <= p && (actions != [] ==> PopsAtMost(Next(s, actions[0]), actions[1..], p))
  }

  lemma OnlyPopper(s: State, t: Thread)
    requires |Popping(s)| <= 1 && t in Popping(s)
    ensures forall u :: u in s.pcs && InPopWindow(s.pcs[u]) ==> u == t
  {
    assert Popping(s) == {t} + (Popping(s) - {t});
    assert |Popping(s) - {t}| == 0;
    forall u | u in s.pcs && InPopWindow(s.pcs[u])
      ensures u == t
    {
      assert u in Popping(s);
    }
  }

  /** A pop in flight has seen a block that is still in the stack. */
  ghost predicate SeenStacked(s: State) {
    forall t :: t in s.pcs && InPopWindow(s.pcs[t]) ==> s.pcs[t].seen in s.stack
  }

  /** Then no push can put that block back, because it owns the block it pushes. */
  lemma StackedIsNotReused(s: State, a: Action)
    requires Inv(s) && SeenStacked(s)
    ensures !Reuses(s, a)
  {
    if a.Run? && At(s, a.t).PushCas? {
      var b := At(s, a.t).block;
      assert OwnedBy(s, a.t, b);
      assert forall u :: Expects(s, u, b) ==> InPopWindow(s.pcs[u]);
    }
  }

  predicate PopSwaps(s: State, a: Action) {
    a.Run? && !a.spurious && At(s, a.t).PopCas? && s.head == At(s, a.t).seen
  }

  lemma OnlyPopsTake(s: State, a: Action, b: Block)
    requires !PopSwaps(s, a) && b in s.stack
    ensures b in Next(s, a).stack
  {
  }

  /** Where a thread in its pop window comes from: it was there with the same block, or it has
      just read the head. */
  lemma WindowComesFrom(s: State, a: Action, u: Thread)
    requires u in Next(s, a).pcs && InPopWindow(Next(s, a).pcs[u])
    ensures var pc := Next(s, a).pcs[u];
            || (u in s.pcs && InPopWindow(s.pcs[u]) && s.pcs[u].seen == pc.seen)
            || (pc.seen == s.head != NULL && !PopSwaps(s, a))
  {
  }

  lemma SwapLeavesWindow(s: State, a: Action)
    requires PopSwaps(s, a)
    ensures a.t in Next(s, a).pcs && !InPopWindow(Next(s, a).pcs[a.t]) && a.t in Popping(s)
  {
  }

  lemma SeenKept(s: State, a: Action, u: Thread)
    requires Inv(s) && SeenStacked(s) && |Popping(s)| <= 1
    requires u in Next(s, a).pcs && InPopWindow(Next(s, a).pcs[u])
    ensures Next(s, a).pcs[u].seen in Next(s, a).stack
  {
    WindowComesFrom(s, a, u);
    if s.head != NULL {
      HeadOnTop(s);
    }
    hide Next, Inv, PopSwaps, Popping;
    var b := Next(s, a).pcs[u].seen;
    if PopSwaps(s, a) {
      SwapLeavesWindow(s, a);
      OnlyPopper(s, a.t);
    } else {
      assert b in s.stack;
      OnlyPopsTake(s, a, b);
    }
  }

  /** With one pop in flight nobody else takes the block that it has seen. */
  lemma NextKeepsSeen(s: State, a: Action)
    requires Inv(s) && SeenStacked(s) && |Popping(s)| <= 1
    ensures SeenStacked(Next(s, a))
  {
    hide Inv, Next, Popping;
    forall u | u in Next(s, a).pcs && InPopWindow(Next(s, a).pcs[u])
      ensures Next(s, a).pcs[u].seen in Next(s, a).stack
    {
      SeenKept(s, a, u);
    }
  }

  lemma {:induction false} OnePopNoReuse(s: State, actions: seq<Action>)
    requires Inv(s) && LinksFresh(s) && SeenStacked(s) && PopsAtMost(s, actions, 1)
    ensures NeverReuses(s, actions)
    decreases |actions|
  {
    hide Inv, Next, Stale, Reuses, LinksFresh, SeenStacked;
    if actions != [] {
      StackedIsNotReused(s, actions[0]);
      FreshIsNotStale(s, actions[0]);
      NextKeepsInv(s, actions[0]);
      NextKeepsFresh(s, actions[0]);
      NextKeepsSeen(s, actions[0]);
      OnePopNoReuse(Next(s, actions[0]), actions[1..]);
    }
  }

  /** At most one pop in flight never meets a reused block. */
  lemma OnePopIsSafe(blocks: set<Block>, actions: seq<Action>)
    requires NULL !in blocks && PopsAtMost(Init(blocks), actions, 1)
    ensures NeverReuses(Init(blocks), actions) && AlwaysSafe(Init(blocks), actions, blocks)
    ensures Safe(Exec(Init(blocks), actions), blocks)
  {
    InitInv(blocks);
    assert LinksFresh(Init(blocks)) && SeenStacked(Init(blocks));
    hide Inv, Init, AllPlaced, LinksFresh, SeenStacked;
    OnePopNoReuse(Init(blocks), actions);
    NoReuseNoStale(Init(blocks), actions);
    RunIsSafe(Init(blocks), actions, blocks);
  }

  // ----- undisturbed operations

  lemma ExecCons(s: State, a: Action, rest: seq<Action>)
    ensures Exec(s, [a] + rest) == Exec(Next(s, a), rest)
  {
    assert ([a] + rest)[1..] == rest;
  }

  lemma {:induction false} ExecConcat(s: State, x: seq<Action>, y: seq<Action>)
    ensures Exec(s, x + y) == Exec(Exec(s, x), y)
    decreases |x|
  {
    if x == [] {
      assert x + y == y;
    } else {
      ExecConcat(Next(s, x[0]), x[1..], y);
      assert (x + y)[1..] == x[1..] + y;
    }
  }

  function Steps(t: Thread, n: nat): seq<Action> {
    if n == 0 then [] else [Run(t, false)] + Steps(t, n - 1)
  }

  function PushRun(t: Thread, b: Block): seq<Action> {
    [StartPush(t, b)] + Steps(t, 4)
  }

  function PopRun(t: Thread): seq<Action> {
    [StartPop(t)] + Steps(t, 5)
  }

  lemma StepsCons(s: State, t: Thread, n: nat)
    requires n > 0
    ensures Exec(s, Steps(t, n)) == Exec(RunStep(s, t, false), Steps(t, n - 1))
  {
    ExecCons(s, Run(t, false), Steps(t, n - 1));
  }

  lemma NoSteps(s: State, t: Thread)
    ensures Exec(s, Steps(t, 0)) == s
  {
  }

  /** A push that runs without interruption pushes. */
  lemma PushAlone(s: State, t: Thread, b: Block)
    requires At(s, t) == Idle && b in s.held
    ensures Exec(s, PushRun(t, b)) ==
            State(b, s.next[b := s.head], Wrap(s.count + 1), s.pcs[t := Idle], [b] + s.stack, s.held - {b})
  {
    hide Exec, Steps, Wrap, Tail;
    ExecCons(s, StartPush(t, b), Steps(t, 4));
    var m := s.(held := s.held - {b});
    StepsCons(Goto(m, t, PushLoad(b)), t, 4);
    assert RunStep(Goto(m, t, PushLoad(b)), t, false) == Goto(m, t, PushLink(b, s.head));
    StepsCons(Goto(m, t, PushLink(b, s.head)), t, 3);
    var s3 := Goto(m.(next := s.next[b := s.head]), t, PushCas(b, s.head));
    assert RunStep(Goto(m, t, PushLink(b, s.head)), t, false) == s3;
    PushFinishes(s3, t, b);
    assert s3.pcs[t := Idle] == s.pcs[t := Idle];
  }

  lemma PushFinishes(s: State, t: Thread, b: Block)
    requires At(s, t) == PushCas(b, s.head)
    ensures Exec(s, Steps(t, 2)) ==
            State(b, s.next, Wrap(s.count + 1), s.pcs[t := Idle], [b] + s.stack, s.held)
  {
    hide Exec, Steps, Wrap;
    StepsCons(s, t, 2);
    var s1 := RunStep(s, t, false);
    StepsCons(s1, t, 1);
    NoSteps(RunStep(s1, t, false), t);
    assert s1.pcs[t := Idle] == s.pcs[t := Idle];
  }

  lemma PopLooks(s: State, t: Thread)
    requires At(s, t) == Idle && s.head != NULL && s.head in s.next
    ensures Exec(s, PopRun(t)) == Exec(Goto(s, t, PopCas(s.head, s.next[s.head])), Steps(t, 3))
  {
    hide Exec, Steps;
    ExecCons(s, StartPop(t), Steps(t, 5));
    var s1 := Goto(s, t, PopLoad);
    StepsCons(s1, t, 5);
    assert RunStep(s1, t, false) == Goto(s, t, PopNext(s.head));
    StepsCons(Goto(s, t, PopNext(s.head)), t, 4);
    assert RunStep(Goto(s, t, PopNext(s.head)), t, false) == Goto(s, t, PopCas(s.head, s.next[s.head]));
  }

  lemma PopFinishes(s: State, t: Thread, b: Block)
    requires At(s, t) == PopCount(b)
    ensures Exec(s, Steps(t, 2)) ==
            State(s.head, s.next[b := NULL], Wrap(s.count - 1), s.pcs[t := Idle], s.stack, s.held + {b})
  {
    hide Exec, Steps, Wrap;
    StepsCons(s, t, 2);
    var s1 := RunStep(s, t, false);
    StepsCons(s1, t, 1);
    NoSteps(RunStep(s1, t, false), t);
    assert s1.pcs[t := Idle] == s.pcs[t := Idle];
  }

  /** A pop that runs without interruption takes the block at the head. */
  lemma PopAlone(s: State, t: Thread)
    requires At(s, t) == Idle && s.head != NULL && s.head in s.next
    ensures Exec(s, PopRun(t)) ==
            State(s.next[s.head], s.next[s.head := NULL], Wrap(s.count - 1), s.pcs[t := Idle],
                  Tail(s.stack), s.held + {s.head})
  {
    hide Exec, Steps, Wrap, Tail, PopRun;
    PopLooks(s, t);
    var s3 := Goto(s, t, PopCas(s.head, s.next[s.head]));
    StepsCons(s3, t, 3);
    var s4 := RunStep(s3, t, false);
    PopFinishes(s4, t, s.head);
    assert s4.pcs[t := Idle] == s.pcs[t := Idle];
  }

  // ----- swaps that fail by chance

  /** n times a swap that fails by chance, and the step back to the next try. */
  function Retries(t: Thread, n: nat): seq<Action> {
    if n == 0 then [] else [Run(t, true)] + ([Run(t, false)] + Retries(t, n - 1))
  }

  lemma {:induction false} PopRetriesStay(s: State, t: Thread, n: nat)
    requires s.head != NULL && s.head in s.next && At(s, t) == PopCas(s.head, s.next[s.head])
    ensures Exec(s, Retries(t, n)) == s
    decreases n
  {
    hide Exec;
    if n == 0 {
      NoSteps(s, t);
    } else {
      var rest := Retries(t, n - 1);
      var s1 := Goto(s, t, PopNext(s.head));
      assert RunStep(s, t, true) == s1;
      ExecCons(s, Run(t, true), [Run(t, false)] + rest);
      ExecCons(s1, Run(t, false), rest);
      assert RunStep(s1, t, false).pcs == s.pcs;
      PopRetriesStay(s, t, n - 1);
    }
  }

  lemma {:induction false} PushRetriesStay(s: State, t: Thread, b: Block, n: nat)
    requires At(s, t) == PushCas(b, s.head) && b in s.next && s.next[b] == s.head
    ensures Exec(s, Retries(t, n)) == s
    decreases n
  {
    hide Exec;
    if n == 0 {
      NoSteps(s, t);
    } else {
      var rest := Retries(t, n - 1);
      var s1 := Goto(s, t, PushLink(b, s.head));
      assert RunStep(s, t, true) == s1;
      ExecCons(s, Run(t, true), [Run(t, false)] + rest);
      ExecCons(s1, Run(t, false), rest);
      assert RunStep(s1, t, false).pcs == s.pcs && RunStep(s1, t, false).next == s.next;
      PushRetriesStay(s, t, b, n - 1);
    }
  }

  /** A pop and a push that nobody disturbs, whose swaps fail n times by chance. */
  function PopTrying(t: Thread, n: nat): seq<Action> {
    ([StartPop(t)] + Steps(t, 2)) + (Retries(t, n) + Steps(t, 3))
  }

  function PushTrying(t: Thread, b: Block, n: nat): seq<Action> {
    ([StartPush(t, b)] + Steps(t, 2)) + (Retries(t, n) + Steps(t, 2))
  }

  lemma PopReads(s: State, t: Thread)
    requires At(s, t) == Idle && s.head != NULL && s.head in s.next
    ensures Exec(s, [StartPop(t)] + Steps(t, 2)) == Goto(s, t, PopCas(s.head, s.next[s.head]))
  {
    hide Exec, Steps;
    ExecCons(s, StartPop(t), Steps(t, 2));
    var s1 := Goto(s, t, PopLoad);
    StepsCons(s1, t, 2);
    var s2 := RunStep(s1, t, false);
    StepsCons(s2, t, 1);
    NoSteps(RunStep(s2, t, false), t);
    assert RunStep(s2, t, false).pcs == s.pcs[t := PopCas(s.head, s.next[s.head])];
  }

  /** However often its swap fails by chance, an undisturbed pop takes the block at the head. */
  lemma PopTriesAgain(s: State, t: Thread, n: nat)
    requires At(s, t) == Idle && s.head != NULL && s.head in s.next
    ensures Exec(s, PopTrying(t, n)) == Exec(s, PopRun(t))
         == State(s.next[s.head], s.next[s.head := NULL], Wrap(s.count - 1), s.pcs[t := Idle],
                  Tail(s.stack), s.held + {s.head})
  {
    PopAlone(s, t);
    hide Exec, Steps, Wrap, Tail, PopRun, Retries;
    PopReads(s, t);
    PopLooks(s, t);
    var s2 := Goto(s, t, PopCas(s.head, s.next[s.head]));
    ExecConcat(s, [StartPop(t)] + Steps(t, 2), Retries(t, n) + Steps(t, 3));
    ExecConcat(s2, Retries(t, n), Steps(t, 3));
    PopRetriesStay(s2, t, n);
  }

  lemma PushLinks(s: State, t: Thread, b: Block)
    requires At(s, t) == Idle && b in s.held
    ensures Exec(s, [StartPush(t, b)] + Steps(t, 2))
         == State(s.head, s.next[b := s.head], s.count, s.pcs[t := PushCas(b, s.head)], s.stack, s.held - {b})
  {
    hide Exec, Steps;
    ExecCons(s, StartPush(t, b), Steps(t, 2));
    var s1 := Goto(s.(held := s.held - {b}), t, PushLoad(b));
    StepsCons(s1, t, 2);
    var s2 := RunStep(s1, t, false);
    StepsCons(s2, t, 1);
    NoSteps(RunStep(s2, t, false), t);
    assert RunStep(s2, t, false).pcs == s.pcs[t := PushCas(b, s.head)];
  }

  /** However often its swap fails by chance, an undisturbed push pushes. */
  lemma PushTriesAgain(s: State, t: Thread, b: Block, n: nat)
    requires At(s, t) == Idle && b in s.held
    ensures Exec(s, PushTrying(t, b, n)) ==
            State(b, s.next[b := s.head], Wrap(s.count + 1), s.pcs[t := Idle], [b] + s.stack, s.held - {b})
  {
    hide Exec, Steps, Wrap, Retries;
    PushLinks(s, t, b);
    var s2 := State(s.head, s.next[b := s.head], s.count, s.pcs[t := PushCas(b, s.head)], s.stack, s.held - {b});
    ExecConcat(s, [StartPush(t, b)] + Steps(t, 2), Retries(t, n) + Steps(t, 2));
    ExecConcat(s2, Retries(t, n), Steps(t, 2));
    PushRetriesStay(s2, t, b, n);
    PushFinishes(s2, t, b);
    assert s2.pcs[t := Idle] == s.pcs[t := Idle];
  }

  // ----- two pops in flight: the ABA run

  /** Thread 0 is about to swap block 1 for block 2; meanwhile thread 1 pops both and pushes
      block 1 again. */
  function AbaSetup(): seq<Action> {
    PushRun(1, 2) + (PushRun(1, 1) + ([StartPop(0), Run(0, false), Run(0, false)]
    + (PopRun(1) + (PopRun(1) + PushRun(1, 1)))))
  }

  function AbaRun(): seq<Action> {
    AbaSetup() + [Run(0, false)]
  }

  lemma AbaState()
    ensures Exec(Init({1, 2}), AbaSetup())
         == State(1, map[1 := 0, 2 := 0], 1, map[0 := PopCas(1, 2), 1 := Idle], [1], {2})
  {
    hide Exec, PushRun, PopRun, Next;
    var s0 := Init({1, 2});
    var r5 := PushRun(1, 1);
    var r4 := PopRun(1) + r5;
    var r3 := PopRun(1) + r4;
    var mid := [StartPop(0), Run(0, false), Run(0, false)];
    var r2 := mid + r3;
    var r1 := PushRun(1, 1) + r2;
    ExecConcat(s0, PushRun(1, 2), r1);
    PushAlone(s0, 1, 2);
    var s1 := Exec(s0, PushRun(1, 2));
    assert s1 == State(2, map[1 := 0, 2 := 0], 1, map[1 := Idle], [2], {1});
    ExecConcat(s1, PushRun(1, 1), r2);
    PushAlone(s1, 1, 1);
    var s2 := Exec(s1, PushRun(1, 1));
    assert s2 == State(1, map[1 := 2, 2 := 0], 2, map[1 := Idle], [1, 2], {});
    ExecConcat(s2, mid, r3);
    SlowPop(s2);
    var s3 := Exec(s2, mid);
    assert s3 == State(1, map[1 := 2, 2 := 0], 2, map[0 := PopCas(1, 2), 1 := Idle], [1, 2], {});
    AbaTail(s3);
  }

  lemma SlowPop(s: State)
    requires At(s, 0) == Idle && s.head != NULL && s.head in s.next
    ensures Exec(s, [StartPop(0), Run(0, false), Run(0, false)]) == Goto(s, 0, PopCas(s.head, s.next[s.head]))
  {
    assert [StartPop(0), Run(0, false), Run(0, false)] == [StartPop(0)] + Steps(0, 2);
    ExecCons(s, StartPop(0), Steps(0, 2));
    var s1 := Next(s, StartPop(0));
    StepsCons(s1, 0, 2);
    StepsCons(RunStep(s1, 0, false), 0, 1);
  }

  lemma AbaTail(s: State)
    requires s == State(1, map[1 := 2, 2 := 0], 2, map[0 := PopCas(1, 2), 1 := Idle], [1, 2], {})
    ensures Exec(s, PopRun(1) + (PopRun(1) + PushRun(1, 1)))
         == State(1, map[1 := 0, 2 := 0], 1, map[0 := PopCas(1, 2), 1 := Idle], [1], {2})
  {
    hide Exec, PushRun, PopRun, Next;
    ExecConcat(s, PopRun(1), PopRun(1) + PushRun(1, 1));
    PopAlone(s, 1);
    var s1 := Exec(s, PopRun(1));
    assert s1 == State(2, map[1 := 0, 2 := 0], 1, map[0 := PopCas(1, 2), 1 := Idle], [2], {1});
    ExecConcat(s1, PopRun(1), PushRun(1, 1));
    PopAlone(s1, 1);
    var s2 := Exec(s1, PopRun(1));
    assert s2 == State(0, map[1 := 0, 2 := 0], 0, map[0 := PopCas(1, 2), 1 := Idle], [], {1, 2});
    PushAlone(s2, 1, 1);
  }

  /** The delayed swap succeeds although the stack has changed: the head now is block 2, which
      a caller holds. */
  lemma AbaBreaks()
    ensures Exec(Init({1, 2}), AbaRun())
         == State(2, map[1 := 0, 2 := 0], 1, map[0 := PopCount(1), 1 := Idle], [], {2})
    ensures !Safe(Exec(Init({1, 2}), AbaRun()), {1, 2})
  {
    hide AbaSetup, Exec, PopsAtMost;
    AbaState();
    var s := State(1, map[1 := 0, 2 := 0], 1, map[0 := PopCas(1, 2), 1 := Idle], [1], {2});
    ExecConcat(Init({1, 2}), AbaSetup(), [Run(0, false)]);
    assert [Run(0, false)] == [Run(0, false)] + [];
    ExecCons(s, Run(0, false), []);
    assert Exec(RunStep(s, 0, false), []) == RunStep(s, 0, false) by { NoSteps(RunStep(s, 0, false), 0); }
  }

  /** The next pop then takes block 2 from the head and returns it, while the caller that
      popped it before still holds it. */
  lemma AbaHandsOutTwice()
    ensures var s := Exec(Init({1, 2}), AbaRun());
            2 in s.held && At(s, 1) == Idle
    ensures var s := Exec(Init({1, 2}), AbaRun() + ([StartPop(1)] + Steps(1, 3)));
            At(s, 1) == PopCount(2) && 2 in s.held
    ensures var s := Exec(Init({1, 2}), AbaRun() + PopRun(1));
            At(s, 1) == Idle && s.head == NULL && 2 in s.held
  {
    AbaBreaks();
    hide AbaRun, Exec, Steps, PopRun;
    var s := State(2, map[1 := 0, 2 := 0], 1, map[0 := PopCount(1), 1 := Idle], [], {2});
    ExecConcat(Init({1, 2}), AbaRun(), [StartPop(1)] + Steps(1, 3));
    ExecConcat(Init({1, 2}), AbaRun(), PopRun(1));
    PopAlone(s, 1);
    PopTakes(s, 1);
  }

  /** Four steps into an undisturbed pop its thread has the block of the head. */
  lemma PopTakes(s: State, t: Thread)
    requires At(s, t) == Idle && s.head != NULL && s.head in s.next
    ensures var r := Exec(s, [StartPop(t)] + Steps(t, 3));
            At(r, t) == PopCount(s.head) && r.held == s.held
  {
    hide Exec, Steps;
    ExecCons(s, StartPop(t), Steps(t, 3));
    var s1 := Goto(s, t, PopLoad);
    StepsCons(s1, t, 3);
    var s2 := RunStep(s1, t, false);
    StepsCons(s2, t, 2);
    var s3 := RunStep(s2, t, false);
    StepsCons(s3, t, 1);
    NoSteps(RunStep(s3, t, false), t);
  }

  predicate OfTwoThreads(a: Action) {
    match a
    case StartPush(t, _) => t <= 1
    case StartPop(t) => t <= 1
    case Run(t, _) => t <= 1
    case CallerWrites(_, _) => true
  }

  lemma {:induction false} TwoThreadsTwoPops(s: State, actions: seq<Action>)
    requires s.pcs.Keys <= {0, 1} && forall a :: a in actions ==> OfTwoThreads(a)
    ensures PopsAtMost(s, actions, 2)
    decreases |actions|
  {
    SubsetSize(Popping(s), {0, 1});
    if actions != [] {
      assert OfTwoThreads(actions[0]);
      TwoThreadsTwoPops(Next(s, actions[0]), actions[1..]);
    }
  }

  lemma {:induction false} SubsetSize(x: set<Thread>, y: set<Thread>)
    requires x <= y
    ensures |x| <= |y|
  {
    if x != {} {
      var t :| t in x;
      SubsetSize(x - {t}, y - {t});
    }
  }

  lemma {:induction false} PopsMonotone(s: State, actions: seq<Action>, p: nat, q: nat)
    requires p <= q && PopsAtMost(s, actions, p)
    ensures PopsAtMost(s, actions, q)
    decreases |actions|
  {
    if actions != [] {
      PopsMonotone(Next(s, actions[0]), actions[1..], p, q);
    }
  }

  ghost predicate SafeWith(p: nat) {
    forall blocks: set<Block>, actions: seq<Action> ::
      NULL !in blocks && PopsAtMost(Init(blocks), actions, p) ==> Safe(Exec(Init(blocks), actions), blocks)
  }

  /** The generation counter is not part of the compare-and-swap, so the pool is safe over all
      runs exactly when at most one pop is in flight at a time. */
  lemma SafeIffOnePop(p: nat)
    ensures SafeWith(p) <==> p <= 1
  {
    if p <= 1 {
      forall blocks: set<Block>, actions: seq<Action> | NULL !in blocks && PopsAtMost(Init(blocks), actions, p)
        ensures Safe(Exec(Init(blocks), actions), blocks)
      {
        PopsMonotone(Init(blocks), actions, p, 1);
        OnePopIsSafe(blocks, actions);
      }
    } else {
      AbaBreaks();
      AbaThreads();
      TwoThreadsTwoPops(Init({1, 2}), AbaRun());
      PopsMonotone(Init({1, 2}), AbaRun(), 2, p);
    }
  }

  lemma AbaThreads()
    ensures forall a :: a in AbaRun() ==> OfTwoThreads(a)
  {
    hide Steps;
    StepsThreads(1, 4);
    StepsThreads(1, 5);
  }

  lemma {:induction false} StepsThreads(t: Thread, n: nat)
    requires t <= 1
    ensures forall a :: a in Steps(t, n) ==> OfTwoThreads(a)
  {
    if n != 0 {
      StepsThreads(t, n - 1);
    }
  }
}
