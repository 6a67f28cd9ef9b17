/** When creating a segment fails: only if the pool or the list is full, however often the swap fails before. */
module CalMemoryAlone {
  import opened CalMemory

  lemma OneStep(s: State, a: Action)
    requires Enabled(s, a)
    ensures Steps(s, [a], Apply(s, a))
  {
    assert Steps(Apply(s, a), [a][1..], Apply(s, a));
  }

  lemma FirstStep(s: State, a: Action, rest: seq<Action>, s': State)
    requires Enabled(s, a) && Steps(Apply(s, a), rest, s')
    ensures Steps(s, [a] + rest, s')
  {
    assert ([a] + rest)[1..] == rest;
  }

  /**
    No thread gives up without a reason, in any run: an allocation that ends without a block has
    found no room for it, and there is none now; and it ends only so or with a block of its own.
   */
  lemma GivesUpOnlyIfFull(pool: nat, maxSegs: nat, threadCount: nat, acts: seq<Action>, s: State, a: Action, u: nat)
    requires 2 * pool < MODULUS && Steps(Init(pool, maxSegs, threadCount), acts, s)
    requires Enabled(s, a) && u < |s.threads| && (s.threads[u].LoadUsed? || s.threads[u].Swap?)
    ensures var th, th', s' := s.threads[u], Apply(s, a).threads[u], Apply(s, a);
      match th'
      case Idle => a.t == u && s.used + th.size > s.pool && s'.blocks == s.blocks
      case Register(b) =>
        a.t == u && b == |s.blocks| && s'.blocks == s.blocks + [Block(s.used, th.size)] &&
          s.used + th.size <= s.pool
      case _ => th'.size == th.size
  {
    RunInv(Init(pool, maxSegs, threadCount), acts, s);
    assert ThreadOk(s, s.threads[u]);
  }

  /** The thread that wants `size` bytes has them, or has given up, with no other thread moving. */
  ghost predicate Allocated(s: State, t: nat, size: nat, acts: seq<Action>, s': State) {
    && t < |s.threads| && Steps(s, acts, s')
    && s' == if s.used + size <= s.pool then
               s.(used := s.used + size, blocks := s.blocks + [Block(s.used, size)],
                  threads := s.threads[t := Register(|s.blocks|)])
             else s.(threads := s.threads[t := Idle])
  }

  lemma Continue(s: State, t: nat, size: nat, a: Action, rest: seq<Action>, s': State)
    requires Enabled(s, a) && t < |s.threads| && Apply(s, a) == s.(threads := s.threads[t := Apply(s, a).threads[t]])
    requires |Apply(s, a).threads| == |s.threads| && Allocated(Apply(s, a), t, size, rest, s')
    ensures Allocated(s, t, size, [a] + rest, s')
  {
    FirstStep(s, a, rest, s');
    var th := Apply(s, a).threads[t];
    assert s.threads[t := th][t := Register(|s.blocks|)] == s.threads[t := Register(|s.blocks|)];
    assert s.threads[t := th][t := Idle] == s.threads[t := Idle];
  }

  /** From a swap with the value of now, after any number of spurious failures. */
  lemma {:induction false} SwapAlone(s: State, t: nat, spurious: nat) returns (acts: seq<Action>, s': State)
    requires Inv(s) && t < |s.threads| && s.threads[t].Swap? && s.threads[t].seen == s.used
    ensures Allocated(s, t, s.threads[t].size, acts, s')
    decreases spurious, 0
  {
    var th := s.threads[t];
    assert ThreadOk(s, th);
    if spurious > 0 && s.used + th.size <= s.pool {
      acts, s' := FailAndLoad(s, t, true, spurious - 1);
    } else {
      acts, s' := [Action(t, CompareAndSwap(false))], Apply(s, Action(t, CompareAndSwap(false)));
      OneStep(s, Action(t, CompareAndSwap(false)));
    }
  }

  /** A swap that fails, and the next one, which knows the value of now. */
  lemma {:induction false} FailAndLoad(s: State, t: nat, spuriously: bool, spurious: nat)
      returns (acts: seq<Action>, s': State)
    requires Inv(s) && t < |s.threads| && s.threads[t].Swap? && !Exhausted(s, s.threads[t])
    requires spuriously || s.threads[t].seen != s.used
    ensures Allocated(s, t, s.threads[t].size, acts, s')
    decreases spurious, 2
  {
    var fails := Action(t, CompareAndSwap(spuriously));
    StepInv(s, fails);
    acts, s' := LoadAlone(Apply(s, fails), t, spurious);
    Continue(s, t, s.threads[t].size, fails, acts, s');
    acts := [fails] + acts;
  }

  lemma {:induction false} LoadAlone(s: State, t: nat, spurious: nat) returns (acts: seq<Action>, s': State)
    requires Inv(s) && t < |s.threads| && s.threads[t].LoadUsed?
    ensures Allocated(s, t, s.threads[t].size, acts, s')
    decreases spurious, 1
  {
    var load := Action(t, Load);
    StepInv(s, load);
    acts, s' := SwapAlone(Apply(s, load), t, spurious);
    Continue(s, t, s.threads[t].size, load, acts, s');
    acts := [load] + acts;
  }

  /**
    From any swap in any reachable state, after any number of spurious failures: with no other thread
    moving, the thread gets its block exactly if the pool has room for it, even if what it has seen is
    long out of date.
   */
  lemma RetryAlone(s: State, t: nat, spurious: nat) returns (acts: seq<Action>, s': State)
    requires Inv(s) && t < |s.threads| && s.threads[t].Swap?
    ensures Allocated(s, t, s.threads[t].size, acts, s')
  {
    var th := s.threads[t];
    assert ThreadOk(s, th);
    if th.seen == s.used {
      acts, s' := SwapAlone(s, t, spurious);
    } else if Exhausted(s, th) {
      acts, s' := [Action(t, CompareAndSwap(false))], Apply(s, Action(t, CompareAndSwap(false)));
      OneStep(s, Action(t, CompareAndSwap(false)));
    } else {
      acts, s' := FailAndLoad(s, t, false, spurious);
    }
  }

  /**
    Creating a segment with no other thread moving: it is registered with the block behind all others
    exactly if pool and list have room, and a block that finds the list full is not given back.
   */
  lemma CreateAlone(s: State, t: nat, size: nat, spurious: nat) returns (acts: seq<Action>, s': State)
    requires Inv(s) && t < |s.threads| && s.threads[t].Idle?
    requires 0 < size <= s.pool && size % 8 == 0
    ensures Steps(s, acts, s') && Inv(s') && s'.threads == s.threads
    ensures if s.used + size <= s.pool then
              && s'.used == s.used + size && s'.blocks == s.blocks + [Block(s.used, size)]
              && s'.list == if |s.list| + 1 < s.maxSegs then s.list + [s.used] else s.list
            else s' == s
  {
    var create, register := Action(t, Create(size)), Action(t, RegisterSection);
    StepInv(s, create);
    var s1;
    acts, s1 := LoadAlone(Apply(s, create), t, spurious);
    Continue(s, t, size, create, acts, s1);
    acts := [create] + acts;
    RunInv(s, acts, s1);
    if s.used + size <= s.pool {
      StepInv(s1, register);
      s' := Apply(s1, register);
      ThenOneStep(s, acts, s1, register);
      acts := acts + [register];
    } else {
      s' := s1;
    }
    assert s'.threads == s.threads;
  }

  lemma {:induction false} ThenOneStep(s: State, acts: seq<Action>, s': State, a: Action)
    requires Steps(s, acts, s') && Enabled(s', a)
    ensures Steps(s, acts + [a], Apply(s', a))
    decreases |acts|
  {
    if acts == [] {
      OneStep(s, a);
      assert acts + [a] == [a];
    } else {
      ThenOneStep(Apply(s, acts[0]), acts[1..], s', a);
      assert (acts + [a])[1..] == acts[1..] + [a];
    }
  }
}
