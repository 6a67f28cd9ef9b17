/** The lock of the reference counting algorithm: it ends with a page, and undisturbed with the newest version. */
module RefCountAlone {
  import opened RefCountRcu

  /** The steps that a lock consists of. */
  predicate IsLockStep(r: ReaderStep) {
    r.LockStart? || r.LoadPage? || r.PinPage? || r.ValidatePage? || r.UnpinPage?
  }

  /**
    A lock never ends without a page. A thread inside a lock leaves it with exactly one lock more,
    on an RCU page; while it is inside it holds what it held before. The default page is taken by
    the first step, exactly if the readers' access is not the working page.
   */
  lemma LockEndsWithPage(s: State, t: nat, r: ReaderStep)
    requires Enabled(s, Reader(t, r)) && IsLockStep(r)
    ensures var th, th' := s.threads[t], Apply(s, Reader(t, r)).threads[t];
      if th'.pc != Idle then th'.locks == th.locks && (th.pc == Idle ==> s.working)
      else
        && |th'.locks| == |th.locks| + 1 && th'.locks[..|th.locks|] == th.locks
        && th'.locks[|th.locks|].buf == []
        && (if th.pc == Idle then !s.working && th'.locks[|th.locks|].loc == DefaultLoc
            else th'.locks[|th.locks|].loc == Rcu(s.published))
  {
  }

  /** Outside a lock a thread keeps its locks, but for the one that it unlocks and the bytes that it reads. */
  lemma OtherStepsKeepLocks(s: State, t: nat, r: ReaderStep)
    requires Enabled(s, Reader(t, r)) && !IsLockStep(r)
    ensures var th, th' := s.threads[t], Apply(s, Reader(t, r)).threads[t];
      && th.pc == th'.pc == Idle
      && match r
         case ReadByte(h) =>
           |th'.locks| == |th.locks| && |th'.locks[h].buf| == |th.locks[h].buf| + 1 &&
           forall i :: 0 <= i < |th.locks| && i != h ==> th'.locks[i] == th.locks[i]
         case Unlock(h) =>
           |th'.locks| == |th.locks| - 1 &&
           forall i :: 0 <= i < |th'.locks| ==> th'.locks[i] == th.locks[if i < h then i else i + 1]
         case _ => true
  {
  }

  ghost predicate OnlyLockSteps(acts: seq<Action>, t: nat) {
    forall i :: 0 <= i < |acts| ==> acts[i].Reader? && acts[i].t == t && IsLockStep(acts[i].r)
  }

  /** The thread when its lock has ended, with no other thread moving. */
  function LockedThread(s: State, t: nat): Thread
    requires t < |s.threads|
  {
    var th := s.threads[t];
    if th.pc == Idle && !s.working then th.(locks := th.locks + [Lock(DefaultLoc, 0, [])])
    else Thread(Idle, th.locks + [Lock(Rcu(s.published), Latest(s), [])], th.seen + [Latest(s)])
  }

  /** `s'` differs from `s` in the thread that has locked, and in the reference counts. */
  ghost predicate LockEnds(s: State, t: nat, acts: seq<Action>, s': State)
    requires t < |s.threads|
  {
    && OnlyLockSteps(acts, t) && Steps(s, acts, s')
    && s' == s.(refs := s'.refs, threads := s.threads[t := LockedThread(s, t)])
  }

  lemma OneStep(s: State, a: Action)
    requires Enabled(s, a)
    ensures Steps(s, [a], Apply(s, a))
  {
    assert Steps(Apply(s, a), [a][1..], Apply(s, a));
  }

  lemma FirstStep(s: State, a: Action, rest: seq<Action>, s': State)
    requires Enabled(s, a) && Steps(Apply(s, a), rest, s')
    ensures Steps(s, [a] + rest, s')
  {
    assert ([a] + rest)[1..] == rest;
  }

  /** One step of a lock that does not end it, and the rest. */
  lemma Continue(s: State, t: nat, r: ReaderStep, rest: seq<Action>, s': State) returns (acts: seq<Action>)
    requires Enabled(s, Reader(t, r)) && IsLockStep(r)
    requires var s1 := Apply(s, Reader(t, r));
      && s1 == s.(refs := s1.refs, threads := s.threads[t := s1.threads[t]]) && LockEnds(s1, t, rest, s')
      && LockedThread(s1, t) == LockedThread(s, t)
    ensures LockEnds(s, t, acts, s')
  {
    acts := [Reader(t, r)] + rest;
    FirstStep(s, Reader(t, r), rest, s');
    assert s'.threads == s.threads[t := LockedThread(s, t)];
  }

  lemma EndAtOnce(s: State, t: nat, r: ReaderStep) returns (acts: seq<Action>, s': State)
    requires Enabled(s, Reader(t, r)) && IsLockStep(r)
    requires Apply(s, Reader(t, r)) == s.(threads := s.threads[t := LockedThread(s, t)])
    ensures LockEnds(s, t, acts, s')
  {
    acts, s' := [Reader(t, r)], Apply(s, Reader(t, r));
    OneStep(s, Reader(t, r));
  }

  lemma FromLoad(s: State, t: nat) returns (acts: seq<Action>, s': State)
    requires Inv(s) && t < |s.threads| && s.threads[t].pc == LoadPublished && s.refs[s.published] < REF_MAX
    ensures LockEnds(s, t, acts, s')
  {
    var s1 := Apply(s, Reader(t, LoadPage));
    var s2 := Apply(s1, Reader(t, PinPage));
    acts, s' := EndAtOnce(s2, t, ValidatePage);
    acts := Continue(s1, t, PinPage, acts, s');
    acts := Continue(s, t, LoadPage, acts, s');
  }

  lemma UnpinCounts(s: State, t: nat, p: nat)
    requires Inv(s) && t < |s.threads| && s.threads[t].pc == Unpin(p)
    ensures 1 <= p < |s.refs| && s.refs[p] > 0
  {
    assert ThreadOk(s, s.threads[t]);
    PinsBound(s.threads, t, p);
  }

  lemma FromUnpin(s: State, t: nat) returns (acts: seq<Action>, s': State)
    requires Inv(s) && t < |s.threads| && s.threads[t].pc.Unpin? && s.refs[s.published] < REF_MAX
    ensures LockEnds(s, t, acts, s')
  {
    UnpinCounts(s, t, s.threads[t].pc.p);
    var s1 := Apply(s, Reader(t, UnpinPage));
    StepInv(s, Reader(t, UnpinPage));
    acts, s' := FromLoad(s1, t);
    acts := Continue(s, t, UnpinPage, acts, s');
  }

  lemma FromValidate(s: State, t: nat) returns (acts: seq<Action>, s': State)
    requires Inv(s) && t < |s.threads| && s.threads[t].pc.Validate? && s.refs[s.published] < REF_MAX
    ensures LockEnds(s, t, acts, s')
  {
    if s.threads[t].pc.p == s.published {
      acts, s' := EndAtOnce(s, t, ValidatePage);
    } else {
      var s1 := Apply(s, Reader(t, ValidatePage));
      StepInv(s, Reader(t, ValidatePage));
      acts, s' := FromUnpin(s1, t);
      acts := Continue(s, t, ValidatePage, acts, s');
    }
  }

  lemma FromPin(s: State, t: nat) returns (acts: seq<Action>, s': State)
    requires Inv(s) && t < |s.threads| && s.threads[t].pc.Pin?
    requires s.refs[s.published] < REF_MAX && (s.threads[t].pc.p < |s.refs| ==> s.refs[s.threads[t].pc.p] < REF_MAX)
    ensures LockEnds(s, t, acts, s')
  {
    assert ThreadOk(s, s.threads[t]);
    if s.threads[t].pc.p == s.published {
      var s1 := Apply(s, Reader(t, PinPage));
      acts, s' := EndAtOnce(s1, t, ValidatePage);
      acts := Continue(s, t, PinPage, acts, s');
    } else {
      var s1 := Apply(s, Reader(t, PinPage));
      StepInv(s, Reader(t, PinPage));
      acts, s' := FromValidate(s1, t);
      acts := Continue(s, t, PinPage, acts, s');
    }
  }

  lemma FromStart(s: State, t: nat) returns (acts: seq<Action>, s': State)
    requires Inv(s) && t < |s.threads| && s.threads[t].pc == Idle && s.refs[s.published] < REF_MAX
    ensures LockEnds(s, t, acts, s')
  {
    if s.working {
      var s1 := Apply(s, Reader(t, LockStart));
      StepInv(s, Reader(t, LockStart));
      acts, s' := FromLoad(s1, t);
      acts := Continue(s, t, LockStart, acts, s');
    } else {
      acts, s' := EndAtOnce(s, t, LockStart);
    }
  }

  /**
    From any point of a lock, in any reachable state: with no other thread moving, the thread ends
    with one more lock, on the published page and of the newest version - or, at the start and if the
    working page is not selected, on the default page.
   */
  lemma LockAlone(s: State, t: nat) returns (acts: seq<Action>, s': State)
    requires Inv(s) && t < |s.threads| && forall p :: 0 <= p < |s.refs| ==> s.refs[p] < REF_MAX
    ensures LockEnds(s, t, acts, s')
  {
    var pc := s.threads[t].pc;
    if pc.Idle? {
      acts, s' := FromStart(s, t);
    } else if pc.LoadPublished? {
      acts, s' := FromLoad(s, t);
    } else if pc.Pin? {
      acts, s' := FromPin(s, t);
    } else if pc.Validate? {
      acts, s' := FromValidate(s, t);
    } else {
      acts, s' := FromUnpin(s, t);
    }
  }

  /** The reader copies a whole page out of its lock, byte by byte. */
  lemma {:induction false} CopyOutAlone(s: State, t: nat, h: nat) returns (acts: seq<Action>, s': State)
    requires Inv(s) && t < |s.threads| && s.threads[t].pc == Idle && h < |s.threads[t].locks|
    ensures Steps(s, acts, s') && forall j :: 0 <= j < |acts| ==> acts[j].Reader?
    ensures t < |s'.threads| && h < |s'.threads[t].locks| == |s.threads[t].locks|
    ensures s'.threads[t].locks[h].buf == PageAt(s, s.threads[t].locks[h].loc)
    decreases |s.default| - |s.threads[t].locks[h].buf|
  {
    var l := s.threads[t].locks[h];
    assert ThreadOk(s, s.threads[t]) && LockOk(s, l);
    if |l.buf| == |PageAt(s, l.loc)| {
      acts, s' := [], s;
    } else {
      var s1 := Apply(s, Reader(t, ReadByte(h)));
      StepInv(s, Reader(t, ReadByte(h)));
      var rest;
      rest, s' := CopyOutAlone(s1, t, h);
      FirstStep(s, Reader(t, ReadByte(h)), rest, s');
      acts := [Reader(t, ReadByte(h))] + rest;
    }
  }

  /** A lock, and everything that it gives: the page that is published. */
  lemma LockAndCopy(s: State, t: nat) returns (acts: seq<Action>, s': State)
    requires Inv(s) && t < |s.threads| && s.threads[t].pc == Idle && s.working
    requires forall p :: 0 <= p < |s.refs| ==> s.refs[p] < REF_MAX
    ensures Steps(s, acts, s') && forall j :: 0 <= j < |acts| ==> acts[j].Reader?
    ensures t < |s'.threads| && |s'.threads[t].locks| == |s.threads[t].locks| + 1 && s.published < |s.pages|
    ensures s'.threads[t].locks[|s.threads[t].locks|].buf == s.pages[s.published]
  {
    var s1;
    acts, s1 := LockAlone(s, t);
    RunInv(s, acts, s1);
    var copy;
    copy, s' := CopyOutAlone(s1, t, |s.threads[t].locks|);
    StepsConcat(s, acts, s1, copy, s');
    acts := acts + copy;
  }
}
