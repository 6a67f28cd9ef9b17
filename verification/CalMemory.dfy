/**
  Creating calibration segments from any number of threads: the lock-free bump allocator of the
  segment pool, and the registration of the new segment in the list under a mutex. One action is
  one atomic access or one mutex section.
 */
module CalMemory {
  const ALIGNMENT := 8
  const MODULUS := 0x1_0000_0000

  /** A block of the pool; which segment lies in it is decided by its offset. */
  datatype Block = Block(off: nat, size: nat)

  datatype Thread =
    | Idle
    | LoadUsed(size: nat)
    | Swap(size: nat, seen: nat)
    | Register(b: nat)

  /** `blocks` logs the successful allocations; `list` holds the offsets of the registered segments. */
  datatype State = State(pool: nat, maxSegs: nat, used: nat, threads: seq<Thread>, blocks: seq<Block>, list: seq<nat>)

  datatype Step =
    | Create(size: nat)
    | Load
    | CompareAndSwap(spurious: bool)
    | RegisterSection

  datatype Action = Action(t: nat, step: Step)

  function Init(pool: nat, maxSegs: nat, threadCount: nat): State {
    State(pool, maxSegs, 0, seq(threadCount, _ => Idle), [], [])
  }

  predicate StepEnabled(s: State, th: Thread, step: Step) {
    match step
    // What the assertions of the allocator demand of a size
    case Create(size) => th.Idle? && size > 0 && size % ALIGNMENT == 0 && size <= s.pool
    case Load => th.LoadUsed?
    case CompareAndSwap(_) => th.Swap?
    case RegisterSection => th.Register? && th.b < |s.blocks|
  }

  predicate Exhausted(s: State, th: Thread)
    requires th.Swap?
  {
    (th.seen + th.size) % MODULUS > s.pool
  }

  predicate Swaps(s: State, th: Thread, spurious: bool)
    requires th.Swap?
  {
    !Exhausted(s, th) && !spurious && s.used == th.seen
  }

  function ThreadAfter(s: State, th: Thread, step: Step): Thread
    requires StepEnabled(s, th, step)
  {
    match step
    case Create(size) => LoadUsed(size)
    case Load => Swap(th.size, s.used)
    case CompareAndSwap(spurious) =>
      if Exhausted(s, th) then Idle else if Swaps(s, th, spurious) then Register(|s.blocks|) else LoadUsed(th.size)
    case RegisterSection => Idle
  }

  function Effect(s: State, th: Thread, step: Step): State
    requires StepEnabled(s, th, step)
  {
    match step
    case CompareAndSwap(spurious) =>
      if Swaps(s, th, spurious) then
        s.(used := (th.seen + th.size) % MODULUS, blocks := s.blocks + [Block(th.seen, th.size)])
      else s
    case RegisterSection => if |s.list| + 1 >= s.maxSegs then s else s.(list := s.list + [s.blocks[th.b].off])
    case _ => s
  }

  predicate Enabled(s: State, a: Action) {
    a.t < |s.threads| && StepEnabled(s, s.threads[a.t], a.step)
  }

  function Apply(s: State, a: Action): State
    requires Enabled(s, a)
  {
    Effect(s, s.threads[a.t], a.step).(threads := s.threads[a.t := ThreadAfter(s, s.threads[a.t], a.step)])
  }

  ghost predicate Steps(s: State, acts: seq<Action>, s': State)
    decreases |acts|
  {
    if acts == [] then s' == s
    else Enabled(s, acts[0]) && Steps(Apply(s, acts[0]), acts[1..], s')
  }

  // ---------------------------------------------------------------- the invariant

  function End(b: Block): nat { b.off + b.size }

  /** The blocks lie one behind the other, aligned, and fill exactly the used part of the pool. */
  ghost predicate Stacked(s: State) {
    && s.used <= s.pool && s.used % ALIGNMENT == 0
    && (forall i :: 0 <= i < |s.blocks| ==>
      s.blocks[i].size > 0 && s.blocks[i].off % ALIGNMENT == 0 && End(s.blocks[i]) <= s.used)
    && (forall i, j :: 0 <= i < j < |s.blocks| ==> End(s.blocks[i]) <= s.blocks[j].off)
  }

  ghost predicate ThreadOk(s: State, th: Thread) {
    match th
    case LoadUsed(size) => 0 < size <= s.pool && size % ALIGNMENT == 0
    case Swap(size, seen) => 0 < size <= s.pool && size % ALIGNMENT == 0 && seen <= s.used
    case Register(b) => b < |s.blocks| && s.blocks[b].off !in s.list
    case Idle => true
  }

  /** A block starts at `off`. */
  ghost predicate StartsBlock(blocks: seq<Block>, off: nat) {
    exists b :: 0 <= b < |blocks| && blocks[b].off == off
  }

  ghost predicate Inv(s: State) {
    && 2 * s.pool < MODULUS
    && Stacked(s)
    && (forall t :: 0 <= t < |s.threads| ==> ThreadOk(s, s.threads[t]))
    && (forall t, u :: 0 <= t < u < |s.threads| && s.threads[t].Register? && s.threads[u].Register? ==>
      s.threads[t].b != s.threads[u].b)
    && (forall i, j :: 0 <= i < j < |s.list| ==> s.list[i] != s.list[j])
    && (forall i :: 0 <= i < |s.list| ==> StartsBlock(s.blocks, s.list[i]))
    && (s.list != [] ==> |s.list| < s.maxSegs)
  }

  lemma OffsetsDiffer(s: State, i: nat, j: nat)
    requires Stacked(s) && i < j < |s.blocks|
    ensures s.blocks[i].off < s.blocks[j].off
  {
    assert End(s.blocks[i]) <= s.blocks[j].off;
  }

  /** A new block starts where all others end, so that it is not in the list. */
  lemma FreshOffset(s: State)
    requires Inv(s)
    ensures s.used !in s.list
  {
    forall i | 0 <= i < |s.list|
      ensures s.list[i] != s.used
    {
      var b :| 0 <= b < |s.blocks| && s.blocks[b].off == s.list[i];
      assert End(s.blocks[b]) <= s.used;
    }
  }

  lemma SwapStacked(s: State, th: Thread)
    requires 2 * s.pool < MODULUS && Stacked(s) && ThreadOk(s, th) && th.Swap? && Swaps(s, th, false)
    ensures Stacked(Effect(s, th, CompareAndSwap(false)))
  {
  }

  lemma SwapInv(s: State, t: nat)
    requires Inv(s) && t < |s.threads| && s.threads[t].Swap? && Swaps(s, s.threads[t], false)
    ensures Inv(Apply(s, Action(t, CompareAndSwap(false))))
  {
    var s' := Apply(s, Action(t, CompareAndSwap(false)));
    SwapStacked(s, s.threads[t]);
    FreshOffset(s);
    forall u | 0 <= u < |s'.threads|
      ensures ThreadOk(s', s'.threads[u])
    {
      assert ThreadOk(s, s.threads[u]);
    }
    forall i | 0 <= i < |s'.list|
      ensures StartsBlock(s'.blocks, s'.list[i])
    {
      var b :| 0 <= b < |s.blocks| && s.blocks[b].off == s.list[i];
      assert s'.blocks[b].off == s'.list[i];
    }
  }

  lemma RegisterInv(s: State, t: nat)
    requires Inv(s) && Enabled(s, Action(t, RegisterSection))
    ensures Inv(Apply(s, Action(t, RegisterSection)))
  {
    var s', b := Apply(s, Action(t, RegisterSection)), s.threads[t].b;
    assert ThreadOk(s, s.threads[t]);
    forall u | 0 <= u < |s'.threads|
      ensures ThreadOk(s', s'.threads[u])
    {
      assert ThreadOk(s, s.threads[u]);
      if u != t && s.threads[u].Register? {
        var c := s.threads[u].b;
        OffsetsDiffer(s, if b < c then b else c, if b < c then c else b);
      }
    }
    forall i | 0 <= i < |s'.list|
      ensures StartsBlock(s'.blocks, s'.list[i])
    {
      assert i == |s.list| ==> s'.blocks[b].off == s'.list[i];
    }
  }

  lemma StepInv(s: State, a: Action)
    requires Inv(s) && Enabled(s, a)
    ensures Inv(Apply(s, a))
  {
    var th := s.threads[a.t];
    if a.step.CompareAndSwap? && Swaps(s, th, a.step.spurious) {
      SwapInv(s, a.t);
    } else if a.step.RegisterSection? {
      RegisterInv(s, a.t);
    } else {
      var s' := Apply(s, a);
      forall u | 0 <= u < |s'.threads|
        ensures ThreadOk(s', s'.threads[u])
      {
        assert ThreadOk(s, s.threads[u]);
      }
    }
  }

  lemma {:induction false} RunInv(s: State, acts: seq<Action>, s': State)
    requires Inv(s) && Steps(s, acts, s')
    ensures Inv(s')
    decreases |acts|
  {
    if acts != [] {
      StepInv(s, acts[0]);
      RunInv(Apply(s, acts[0]), acts[1..], s');
    }
  }

  /**
    Over every run, whatever the interleaving: blocks handed out are aligned, lie inside the pool and
    never overlap; no block is registered twice; and every list entry is the start of a block.
   */
  lemma BlocksAreExclusive(pool: nat, maxSegs: nat, threadCount: nat, acts: seq<Action>, s: State)
    requires 2 * pool < MODULUS && Steps(Init(pool, maxSegs, threadCount), acts, s)
    ensures forall i :: 0 <= i < |s.blocks| ==> s.blocks[i].off % ALIGNMENT == 0 && End(s.blocks[i]) <= s.used <= s.pool
    ensures forall i, j :: 0 <= i < j < |s.blocks| ==> End(s.blocks[i]) <= s.blocks[j].off
    ensures forall i, j :: 0 <= i < j < |s.list| ==> s.list[i] != s.list[j]
    ensures forall i :: 0 <= i < |s.list| ==> StartsBlock(s.blocks, s.list[i])
  {
    RunInv(Init(pool, maxSegs, threadCount), acts, s);
  }

  /** With no thread moving, an allocation fails exactly if the pool has no room left for it. */
  lemma AllocationAlone(s: State, t: nat, size: nat)
    requires Inv(s) && t < |s.threads| && s.threads[t].Idle? && StepEnabled(s, Idle, Create(size))
    ensures var s3 := Apply(Apply(Apply(s, Action(t, Create(size))), Action(t, Load)),
      Action(t, CompareAndSwap(false)));
      if s.used + size <= s.pool then
        s3.threads[t] == Register(|s.blocks|) && s3.blocks == s.blocks + [Block(s.used, size)] &&
          s3.used == s.used + size
      else s3.threads[t] == Idle && s3.blocks == s.blocks && s3.used == s.used
  {
  }
}
