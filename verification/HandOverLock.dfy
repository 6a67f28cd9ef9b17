/** The lock of the hand-over algorithm, from any point in any run: it is wait-free and ends with a page. */
module HandOverLock {
  import opened HandOverRcu
  import opened HandOverAlone

  predicate IsLockStep(r: ReaderStep) { !r.ReadByte? && !r.Unlock? }

  /**
    A lock never ends without a page: a thread leaves it with exactly one lock more, on the ECU page,
    or on the default page exactly if the readers' access is not the working page when it looks.
   */
  lemma LockEndsWithPage(s: State, t: nat, r: ReaderStep)
    requires Enabled(s, Reader(t, r)) && IsLockStep(r)
    ensures var th, th' := s.threads[t], Apply(s, Reader(t, r)).threads[t];
      if th'.pc != Idle then th'.locks == th.locks && (th.pc == LoadAccess ==> s.working)
      else
        && |th'.locks| == |th.locks| + 1 && th'.locks[..|th.locks|] == th.locks
        && th'.locks[|th.locks|].buf == []
        && (if th.pc == LoadAccess then !s.working && th'.locks[|th.locks|].loc == DefaultLoc
            else th'.locks[|th.locks|].loc == Rcu(s.h.ecu))
  {
  }

  /** Outside a lock a thread keeps its locks, but for the one that it unlocks and the bytes that it reads. */
  lemma OtherStepsKeepLocks(s: State, t: nat, r: ReaderStep)
    requires Enabled(s, Reader(t, r)) && !IsLockStep(r)
    ensures var th, th' := s.threads[t], Apply(s, Reader(t, r)).threads[t];
      && th.pc == th'.pc == Idle
      && match r
         case ReadByte(h) =>
           |th'.locks| == |th.locks| && |th'.locks[h].buf| == |th.locks[h].buf| + 1 &&
           forall i :: 0 <= i < |th.locks| && i != h ==> th'.locks[i] == th.locks[i]
         case Unlock(h) =>
           |th'.locks| == |th.locks| - 1 &&
           forall i :: 0 <= i < |th'.locks| ==> th'.locks[i] == th.locks[if i < h then i else i + 1]
         case _ => true
  {
  }

  /** The steps that a thread has still to make, at most. */
  function Left(pc: ReaderPc): nat {
    match pc
    case Idle => 0
    case LoadNext => 7
    case LoadCurrent(_) => 6
    case SetHazard(_, _) => 5
    case StoreEcu(_, _) => 4
    case StoreFree(_) => 3
    case ClearHazard => 3
    case LoadAccess => 2
    case LoadPage => 1
  }

  function NextStep(pc: ReaderPc): ReaderStep
    requires pc != Idle
  {
    match pc
    case LoadNext => ReadNext
    case LoadCurrent(_) => ReadCurrent
    case SetHazard(_, _) => MarkHazard
    case StoreEcu(_, _) => TakeOver
    case StoreFree(_) => HandBack
    case ClearHazard => ResetHazard
    case LoadAccess => ReadAccess
    case LoadPage => ReadPage
  }

  /** In every state, the next step of a thread inside a lock is enabled and brings it closer to the end. */
  lemma LockProgresses(s: State, t: nat)
    requires t < |s.threads| && s.threads[t].pc != Idle
    ensures Enabled(s, Reader(t, NextStep(s.threads[t].pc)))
    ensures Left(Apply(s, Reader(t, NextStep(s.threads[t].pc))).threads[t].pc) < Left(s.threads[t].pc)
  {
  }

  /** So from any point of a lock the thread alone ends it within seven steps, with one lock more. */
  lemma {:induction false} LockFinishes(s: State, t: nat) returns (acts: seq<Action>, s': State)
    requires t < |s.threads| && s.threads[t].pc != Idle
    ensures OnlyThread(acts, t) && |acts| <= Left(s.threads[t].pc) && Steps(s, acts, s')
    ensures |s'.threads| == |s.threads| && s'.threads[t].pc == Idle
    ensures |s'.threads[t].locks| == |s.threads[t].locks| + 1
    ensures s'.threads[t].locks[..|s.threads[t].locks|] == s.threads[t].locks
    decreases Left(s.threads[t].pc)
  {
    var a := Reader(t, NextStep(s.threads[t].pc));
    LockProgresses(s, t);
    LockEndsWithPage(s, t, a.r);
    var s1 := Apply(s, a);
    acts, s' := [], s1;
    if s1.threads[t].pc != Idle {
      acts, s' := LockFinishes(s1, t);
    }
    assert ([a] + acts)[1..] == acts;
    acts := [a] + acts;
  }

  /** The reader copies a whole page out of its lock, byte by byte. */
  lemma {:induction false} CopyOutAlone(s: State, t: nat, h: nat) returns (acts: seq<Action>, s': State)
    requires Inv(s) && t < |s.threads| && s.threads[t].pc == Idle && h < |s.threads[t].locks|
    ensures Steps(s, acts, s') && OnlyThread(acts, t)
    ensures t < |s'.threads| && h < |s'.threads[t].locks| == |s.threads[t].locks|
    ensures s'.threads[t].locks[h].buf == PageAt(s, s.threads[t].locks[h].loc)
    decreases |s.default| - |s.threads[t].locks[h].buf|
  {
    var l := s.threads[t].locks[h];
    assert ThreadOk(s, s.threads[t]) && LockOk(s, l);
    if |l.buf| == |PageAt(s, l.loc)| {
      acts, s' := [], s;
    } else {
      var a := Reader(t, ReadByte(h));
      StepInv(s, a);
      acts, s' := CopyOutAlone(Apply(s, a), t, h);
      assert ([a] + acts)[1..] == acts;
      acts := [a] + acts;
    }
  }

  /** The first lock, and everything that it gives: the page that was announced last. */
  lemma LockAndCopy(s: State, t: nat) returns (acts: seq<Action>, s': State)
    requires Inv(s) && s.h.lockCount == 0 && s.working && t < |s.threads|
    ensures Steps(s, acts, s') && OnlyThread(acts, t)
    ensures t < |s'.threads| && |s'.threads[t].locks| == |s.threads[t].locks| + 1 && s.h.next < |s.pages|
    ensures s'.threads[t].locks[|s.threads[t].locks|].buf == s.pages[s.h.next]
  {
    Unlocked(s, t);
    FirstLockIsNewest(s, t);
    acts := LockAlone(s, t);
    var s1 := LockResult(s, t);
    RunInv(s, acts, s1);
    var copy;
    copy, s' := CopyOutAlone(s1, t, |s.threads[t].locks|);
    StepsConcat(s, acts, s1, copy, s');
    acts := acts + copy;
  }
}
