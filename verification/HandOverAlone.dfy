/**
  Lock, unlock and publish of the hand-over algorithm as one thread runs them while no other moves,
  and how many of them it takes until a publish goes through.
 */
module HandOverAlone {
  import opened Bytes
  import opened HandOverRcu
  import V = VersionRegister

  /** The header after an undisturbed lock. */
  function LockHeader(h: Header): Header {
    var h1 := h.(lockCount := Inc16(h.lockCount));
    if h.lockCount != 0 then h1
    else if h.ecu != h.next then h1.(hazard := true, ecu := h.next, free := Some(h.ecu))
    else h1.(hazard := false)
  }

  function UnlockHeader(h: Header): Header { h.(lockCount := Dec16(h.lockCount)) }

  /** The header after an undisturbed publish. */
  function PublishHeader(h: Header): Header {
    if h.free.None? || h.hazard then h
    else h.(free := None, xcp := h.free.value, next := h.xcp)
  }

  function LockedThread(s: State, t: nat): Thread
    requires t < |s.threads|
  {
    var th := s.threads[t];
    var v := EcuVersion(s.(h := LockHeader(s.h)));
    if s.working then Thread(Idle, th.locks + [Lock(Rcu(LockHeader(s.h).ecu), v, [])], th.seen + [v])
    else th.(locks := th.locks + [Lock(DefaultLoc, 0, [])])
  }

  function LockResult(s: State, t: nat): State
    requires t < |s.threads|
  {
    s.(h := LockHeader(s.h), threads := s.threads[t := LockedThread(s, t)],
       role := if s.h.lockCount == 0 && s.h.ecu != s.h.next then IsFree else s.role)
  }

  function UnlockResult(s: State, t: nat, n: nat): State
    requires t < |s.threads| && n < |s.threads[t].locks|
  {
    s.(h := UnlockHeader(s.h), threads := s.threads[t := s.threads[t].(locks := RemoveAt(s.threads[t].locks, n))])
  }

  function PublishResult(s: State): State
    requires Shape(s) && (s.h.free.Some? ==> s.h.free.value < 3)
  {
    if s.h.free.None? || s.h.hazard then s
    else s.(pages := s.pages[s.h.free.value := s.pages[s.h.xcp]], h := PublishHeader(s.h),
      trace := s.trace + [V.Announce],
            versionOf := s.versionOf[s.h.xcp := Latest(s) + 1], role := IsPending)
  }

  ghost predicate OnlyThread(acts: seq<Action>, t: nat) {
    forall i :: 0 <= i < |acts| ==> acts[i].Reader? && acts[i].t == t
  }

  lemma Prepend(s: State, a: Action, rest: seq<Action>, end: State) returns (acts: seq<Action>)
    requires Enabled(s, a) && Steps(Apply(s, a), rest, end)
    ensures acts == [a] + rest && Steps(s, acts, end)
  {
    acts := [a] + rest;
  }

  /** The machine, run by thread `t` alone, computes `LockResult`. */
  lemma LockAlone(s: State, t: nat) returns (acts: seq<Action>)
    requires t < |s.threads| && s.threads[t].pc == Idle && s.h.lockCount < LOCK_MAX
    ensures OnlyThread(acts, t) && Steps(s, acts, LockResult(s, t))
  {
    var s1 := Apply(s, Reader(t, LockStart));
    if s.h.lockCount == 0 {
      if s.h.ecu != s.h.next {
        acts := TakeOverAlone(s1, t, LockResult(s, t));
      } else {
        acts := ConfirmAlone(s1, t, LockResult(s, t));
      }
    } else {
      acts := FinishAlone(s1, t, LockResult(s, t));
    }
    acts := Prepend(s, Reader(t, LockStart), acts, LockResult(s, t));
  }

  function Finished(s: State, t: nat): State
    requires t < |s.threads|
  {
    var th := s.threads[t];
    s.(threads := s.threads[t :=
      if s.working then Thread(Idle, th.locks + [Lock(Rcu(s.h.ecu), EcuVersion(s), [])], th.seen + [EcuVersion(s)])
      else th.(pc := Idle, locks := th.locks + [Lock(DefaultLoc, 0, [])])])
  }

  lemma FinishAlone(s: State, t: nat, end: State) returns (acts: seq<Action>)
    requires t < |s.threads| && s.threads[t].pc == LoadAccess && end == Finished(s, t)
    ensures OnlyThread(acts, t) && Steps(s, acts, end)
  {
    var s1 := Apply(s, Reader(t, ReadAccess));
    acts := [];
    if s.working {
      assert Apply(s1, Reader(t, ReadPage)) == end;
      acts := Prepend(s1, Reader(t, ReadPage), [], end);
    }
    acts := Prepend(s, Reader(t, ReadAccess), acts, end);
  }

  lemma ConfirmAlone(s: State, t: nat, end: State) returns (acts: seq<Action>)
    requires t < |s.threads| && s.threads[t].pc == LoadNext && s.h.ecu == s.h.next
    requires end == Finished(s.(h := s.h.(hazard := false)), t)
    ensures OnlyThread(acts, t) && Steps(s, acts, end)
  {
    var s1 := Apply(s, Reader(t, ReadNext));
    var s2 := Apply(s1, Reader(t, ReadCurrent));
    acts := FinishAlone(Apply(s2, Reader(t, ResetHazard)), t, end);
    acts := Prepend(s2, Reader(t, ResetHazard), acts, end);
    acts := Prepend(s1, Reader(t, ReadCurrent), acts, end);
    acts := Prepend(s, Reader(t, ReadNext), acts, end);
  }

  lemma TakeOverAlone(s: State, t: nat, end: State) returns (acts: seq<Action>)
    requires t < |s.threads| && s.threads[t].pc == LoadNext && s.h.ecu != s.h.next
    requires end == Finished(s.(h := s.h.(hazard := true, ecu := s.h.next, free := Some(s.h.ecu)), role := IsFree), t)
    ensures OnlyThread(acts, t) && Steps(s, acts, end)
  {
    var s1 := Apply(s, Reader(t, ReadNext));
    var s2 := Apply(s1, Reader(t, ReadCurrent));
    var s3 := Apply(s2, Reader(t, MarkHazard));
    var s4 := Apply(s3, Reader(t, TakeOver));
    acts := FinishAlone(Apply(s4, Reader(t, HandBack)), t, end);
    acts := Prepend(s4, Reader(t, HandBack), acts, end);
    acts := Prepend(s3, Reader(t, TakeOver), acts, end);
    acts := Prepend(s2, Reader(t, MarkHazard), acts, end);
    acts := Prepend(s1, Reader(t, ReadCurrent), acts, end);
    acts := Prepend(s, Reader(t, ReadNext), acts, end);
  }

  /** Steps of the writer inside one attempt to publish; an announcement is the last of them. */
  ghost predicate InAttempt(acts: seq<Action>) {
    forall i :: 0 <= i < |acts| ==>
      && acts[i].Writer? && !acts[i].w.StoreByte? && !acts[i].w.SetEcuAccess? && !acts[i].w.PublishStart?
      && (acts[i].w.AnnounceNext? ==> i == |acts| - 1)
  }

  lemma {:induction false} CopyAlone(s: State) returns (acts: seq<Action>)
    requires Shape(s) && s.writer.Copy? && s.writer.target < 3 && s.writer.target != s.h.xcp
    requires s.writer.k <= |s.default|
    requires s.pages[s.writer.target][..s.writer.k] == s.pages[s.h.xcp][..s.writer.k]
    ensures Steps(s, acts, s.(pages := s.pages[s.writer.target := s.pages[s.h.xcp]],
                              h := s.h.(xcp := s.writer.target, next := s.h.xcp), writer := Ready,
                              trace := s.trace + [V.Announce], role := IsPending,
                              versionOf := s.versionOf[s.h.xcp := Latest(s) + 1]))
    ensures InAttempt(acts)
    decreases |s.default| - s.writer.k
  {
    var target, k := s.writer.target, s.writer.k;
    if k == |s.default| {
      assert s.pages[target] == s.pages[target][..k] == s.pages[s.h.xcp][..k] == s.pages[s.h.xcp];
      assert s.pages == s.pages[target := s.pages[s.h.xcp]];
      var s1 := Apply(s, Writer(SwapPage));
      var s2 := Apply(s1, Writer(AnnounceNext));
      acts := [Writer(SwapPage), Writer(AnnounceNext)];
      assert acts[1..] == [Writer(AnnounceNext)];
      assert Steps(s2, [], s2);
      assert Steps(s1, acts[1..], s2);
    } else {
      var s1 := Apply(s, Writer(CopyByte));
      assert s1.pages[target][..k + 1] == s.pages[target][..k] + [s.pages[s.h.xcp][k]];
      assert s.pages[s.h.xcp][..k + 1] == s.pages[s.h.xcp][..k] + [s.pages[s.h.xcp][k]];
      var rest := CopyAlone(s1);
      acts := [Writer(CopyByte)] + rest;
      assert s1.pages[target := s1.pages[s.h.xcp]] == s.pages[target := s.pages[s.h.xcp]];
    }
  }

  /** A publish that has a free page which no reader may still use. */
  lemma PublishFree(s: State, s1: State) returns (acts: seq<Action>)
    requires Shape(s) && s.h.free.Some? && s.h.free.value < 3 && s.h.free.value != s.h.xcp && s.writer == Ready
    requires !s.h.hazard
    requires WriterEnabled(s, PublishStart) && s1 == Apply(s, Writer(PublishStart))
    ensures Steps(s1, acts, PublishResult(s)) && InAttempt(acts)
  {
    var s2 := Apply(s1, Writer(TestHazard));
    acts := CopyAlone(Apply(s2, Writer(ClearFree)));
    acts := Prepend(s2, Writer(ClearFree), acts, PublishResult(s));
    acts := Prepend(s1, Writer(TestHazard), acts, PublishResult(s));
  }

  /** The machine, run by the writer alone, computes `PublishResult`. */
  lemma PublishAlone(s: State) returns (acts: seq<Action>)
    requires Shape(s) && (s.h.free.Some? ==> s.h.free.value < 3 && s.h.free.value != s.h.xcp) && s.writer == Ready
    ensures Steps(s, acts, PublishResult(s)) && acts != [] && acts[0] == Writer(PublishStart) && InAttempt(acts[1..])
  {
    var s1 := Apply(s, Writer(PublishStart));
    if s.h.free.None? {
      acts := [];
    } else if s.h.hazard {
      acts := Prepend(s1, Writer(TestHazard), [], s);
    } else {
      acts := PublishFree(s, s1);
    }
    acts := Prepend(s, Writer(PublishStart), acts, PublishResult(s));
  }

  /** With no lock held, the next lock on the working page returns the newest announced version. */
  lemma FirstLockIsNewest(s: State, t: nat)
    requires Inv(s) && s.h.lockCount == 0 && s.working && t < |s.threads|
    ensures var l := LockedThread(s, t).locks[|s.threads[t].locks|];
      l.loc == Rcu(s.h.next) && l.version == Latest(s) && s.h.next < 3 &&
        s.pages[s.h.next] == V.Versions(s.default, s.trace)[Latest(s)]
  {
  }

  /** With no lock held and the writer idle, the third page is either free or waiting to be taken over. */
  lemma RestingRole(s: State)
    requires Inv(s) && s.h.lockCount == 0 && s.writer == Ready
    ensures s.role == IsFree || s.role == IsPending
  {
    if s.role == IsInTransit {
      var t :| 0 <= t < |s.threads| && s.threads[t].pc.StoreFree?;
      Unlocked(s, t);
    }
  }

  /** `t` locks and immediately unlocks again. */
  function LockUnlockHeader(h: Header): Header { UnlockHeader(LockHeader(h)) }

  /**
    The progress bound. With no lock held, after one undisturbed lock and unlock a publish succeeds
    iff nothing was waiting to be taken over; after two, always.
   */
  lemma TwoLocksAllowPublish(s: State)
    requires Inv(s) && s.h.lockCount == 0 && s.writer == Ready
    ensures var h1 := LockUnlockHeader(s.h); var h2 := LockUnlockHeader(h1);
      && (PublishHeader(h1) != h1 <==> s.h.next == s.h.ecu)
      && PublishHeader(h2) != h2 && h2.free.Some? && !h2.hazard
      && h2.next == h2.ecu == s.h.next && h2.lockCount == 0 && h2.xcp == s.h.xcp
  {
    RestingRole(s);
  }

  lemma {:induction false} StepsConcat(s: State, acts: seq<Action>, s': State, more: seq<Action>, s'': State)
    requires Steps(s, acts, s') && Steps(s', more, s'')
    ensures Steps(s, acts + more, s'')
    decreases |acts|
  {
    if acts == [] {
      assert acts + more == more;
    } else {
      assert (acts + more)[1..] == acts[1..] + more;
      StepsConcat(Apply(s, acts[0]), acts[1..], s', more, s'');
    }
  }

  /** Thread `t` locks and unlocks undisturbed, as a run of the machine. */
  lemma LockUnlockAlone(s: State, t: nat) returns (acts: seq<Action>, s': State)
    requires Inv(s) && s.h.lockCount == 0 && t < |s.threads|
    ensures Steps(s, acts, s') && Inv(s')
    ensures s'.h == UnlockHeader(LockHeader(s.h)) && s'.writer == s.writer && |s'.threads| == |s.threads|
    ensures s'.pages == s.pages && s'.trace == s.trace && s'.default == s.default
  {
    Unlocked(s, t);
    var lock := LockAlone(s, t);
    var s1 := LockResult(s, t);
    s' := UnlockResult(s1, t, 0);
    var unlock := UnlockAlone(s1, t, 0);
    StepsConcat(s, lock, s1, unlock, s');
    acts := lock + unlock;
    RunInv(s, acts, s');
  }

  lemma UnlockAlone(s: State, t: nat, n: nat) returns (acts: seq<Action>)
    requires t < |s.threads| && s.threads[t].pc == Idle && n < |s.threads[t].locks|
    ensures Steps(s, acts, UnlockResult(s, t, n))
  {
    assert Apply(s, Reader(t, Unlock(n))) == UnlockResult(s, t, n);
    acts := Prepend(s, Reader(t, Unlock(n)), [], UnlockResult(s, t, n));
  }

  /** An announcement adds the writer page as the newest version. */
  lemma AnnouncedVersion(page: V.Page, trace: seq<V.WriterEvent>)
    ensures var vs, vs' := V.Versions(page, trace), V.Versions(page, trace + [V.Announce]);
      |vs'| == |vs| + 1 && vs'[|vs|] == V.Working(page, trace)
  {
    V.TraceStep(page, trace, V.Announce);
  }

  lemma WriterPageIsWorking(s: State)
    requires Shape(s) && PagesOk(s)
    ensures V.Working(s.default, s.trace) == s.pages[s.h.xcp]
  {
  }

  lemma PublishedVersion(s: State)
    requires Shape(s) && PagesOk(s) && s.h.free.Some? && s.h.free.value < 3 && !s.h.hazard
    ensures var end := PublishResult(s);
      Latest(end) == Latest(s) + 1 && V.Versions(end.default, end.trace)[Latest(end)] == s.pages[s.h.xcp]
  {
    AnnouncedVersion(s.default, s.trace);
    WriterPageIsWorking(s);
  }

  /** The same bound as a run of the machine: two undisturbed locks, and the publish goes through. */
  lemma PublishAfterTwoLocks(s: State, t: nat, u: nat) returns (acts: seq<Action>, end: State)
    requires Inv(s) && s.h.lockCount == 0 && s.writer == Ready && t < |s.threads| && u < |s.threads|
    ensures Steps(s, acts, end) && Latest(end) == Latest(s) + 1
    ensures V.Versions(end.default, end.trace)[Latest(end)] == s.pages[s.h.xcp]
  {
    TwoLocksAllowPublish(s);
    var first, s1 := LockUnlockAlone(s, t);
    var second, s2 := LockUnlockAlone(s1, u);
    var publish := PublishAlone(s2);
    PublishedVersion(s2);
    end := PublishResult(s2);
    StepsConcat(s1, second, s2, publish, end);
    StepsConcat(s, first, s1, second + publish, end);
    acts := first + (second + publish);
  }

  /** How many versions the writer can still announce without any help from the readers. */
  function Allowance(s: State): nat {
    if s.role == IsFree || s.role == IsClaimed then 1 else 0
  }

  lemma WriterAllowance(s: State, w: WriterStep)
    requires Shape(s) && RolesOk(s) && WriterEnabled(s, w)
    ensures Latest(WriterAfter(s, w)) + Allowance(WriterAfter(s, w)) == Latest(s) + Allowance(s)
  {
    if w.StoreByte? {
      V.TraceStep(s.default, s.trace, V.Store(w.off, w.val));
    } else if w.AnnounceNext? {
      V.TraceStep(s.default, s.trace, V.Announce);
    }
  }

  /** A segment that no reader ever locks accepts one publish, however often the writer tries. */
  lemma {:induction false} UnlockedAcceptsOnePublish(s: State, acts: seq<Action>, s': State)
    requires Inv(s) && Steps(s, acts, s')
    requires forall i :: 0 <= i < |acts| ==> acts[i].Writer?
    ensures Latest(s') <= Latest(s) + Allowance(s)
    decreases |acts|
  {
    if acts != [] {
      StepInv(s, acts[0]);
      WriterAllowance(s, acts[0].w);
      UnlockedAcceptsOnePublish(Apply(s, acts[0]), acts[1..], s');
    }
  }
}
