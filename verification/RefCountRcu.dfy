/**
  Per page reference counting (OPTION_CAL_RCU_REFCOUNT): the lock-free RCU of a calibration
  segment as a state machine. One action is one atomic access, or one byte of a memcpy.

  RCU page 0 is the writer page. A reader pins the published page and validates it again; the
  writer copies page 0 into a page that is neither published nor pinned, and then announces it.
 */
module RefCountRcu {
  import opened Bytes
  import opened VersionRegister

  /** Where a lock points to: the immutable default page or an RCU page. */
  datatype Loc = DefaultLoc | Rcu(idx: nat)

  /** A held lock. `version` and `seen` below are bookkeeping that no branch depends on. */
  datatype Lock = Lock(loc: Loc, version: nat, buf: seq<Byte>)

  datatype ReaderPc =
    | Idle
    | LoadPublished
    | Pin(p: nat)
    | Validate(p: nat)
    | Unpin(p: nat)

  datatype Thread = Thread(pc: ReaderPc, locks: seq<Lock>, seen: seq<nat>)

  datatype WriterPc =
    | Ready
    | Scan(pub: nat, idx: nat, i: nat)
    | Copy(target: nat, k: nat)

  datatype State = State(
    default: Page,
    pages: seq<Page>,
    refs: seq<nat>,
    published: nat,
    working: bool,
    threads: seq<Thread>,
    writer: WriterPc,
    trace: seq<WriterEvent>)

  datatype ReaderStep =
    | LockStart
    | LoadPage
    | PinPage
    | ValidatePage
    | UnpinPage
    | ReadByte(h: nat)
    | Unlock(h: nat)

  datatype WriterStep =
    | StoreByte(off: nat, val: Byte)
    | SetEcuAccess(toWorking: bool)
    | PublishStart
    | ScanPage
    | CopyByte
    | AnnouncePage

  datatype Action = Reader(t: nat, r: ReaderStep) | Writer(w: WriterStep)

  const REF_MAX := 65535

  /** The reference counts are 16 bits wide. */
  function Inc16(x: nat): nat { (x + 1) % (REF_MAX + 1) }
  function Dec16(x: nat): nat { if x == 0 then REF_MAX else x - 1 }

  function Init(default: Page, spare: seq<Page>, threadCount: nat): State {
    State(default, [default, default] + spare, seq(2 + |spare|, _ => 0), 1, true,
          seq(threadCount, _ => Thread(Idle, [], [])), Ready, [])
  }

  /** At least one candidate; the pool memory of candidates is not written before they are published. */
  predicate SparePages(default: Page, spare: seq<Page>) {
    |spare| >= 1 && forall p :: 0 <= p < |spare| ==> |spare[p]| == |default|
  }

  /** The candidate after `idx`, round robin over 1..n-1. */
  function NextCandidate(idx: nat, n: nat): nat {
    if idx + 1 < n then idx + 1 else 1
  }

  predicate InPages(s: State, p: nat) { p < |s.pages| && p < |s.refs| }

  function PageAt(s: State, loc: Loc): Page {
    match loc
    case DefaultLoc => s.default
    case Rcu(idx) => if idx < |s.pages| then s.pages[idx] else []
  }

  function Latest(s: State): nat { |Versions(s.default, s.trace)| - 1 }

  predicate ReaderEnabled(s: State, th: Thread, r: ReaderStep) {
    match r
    case LockStart => th.pc == Idle
    case LoadPage => th.pc == LoadPublished
    // The user contract: at most 65535 locks on one page
    case PinPage => th.pc.Pin? && InPages(s, th.pc.p) && s.refs[th.pc.p] < REF_MAX
    case ValidatePage => th.pc.Validate?
    case UnpinPage => th.pc.Unpin? && InPages(s, th.pc.p)
    case ReadByte(h) => th.pc == Idle && h < |th.locks| && |th.locks[h].buf| < |PageAt(s, th.locks[h].loc)|
    case Unlock(h) => th.pc == Idle && h < |th.locks| && (th.locks[h].loc.Rcu? ==> InPages(s, th.locks[h].loc.idx))
  }

  function ThreadAfter(s: State, th: Thread, r: ReaderStep): Thread
    requires ReaderEnabled(s, th, r)
  {
    match r
    case LockStart =>
      if s.working then th.(pc := LoadPublished)
      else th.(locks := th.locks + [Lock(DefaultLoc, 0, [])])
    case LoadPage => th.(pc := Pin(s.published))
    case PinPage => th.(pc := Validate(th.pc.p))
    case ValidatePage =>
      if s.published == th.pc.p then
        Thread(Idle, th.locks + [Lock(Rcu(th.pc.p), Latest(s), [])], th.seen + [Latest(s)])
      else th.(pc := Unpin(th.pc.p))
    case UnpinPage => th.(pc := LoadPublished)
    case ReadByte(h) =>
      var l := th.locks[h];
      th.(locks := th.locks[h := l.(buf := l.buf + [PageAt(s, l.loc)[|l.buf|]])])
    case Unlock(h) => th.(locks := RemoveAt(th.locks, h))
  }

  function RefsAfter(s: State, th: Thread, r: ReaderStep): seq<nat>
    requires ReaderEnabled(s, th, r)
  {
    match r
    case PinPage => s.refs[th.pc.p := Inc16(s.refs[th.pc.p])]
    case UnpinPage => s.refs[th.pc.p := Dec16(s.refs[th.pc.p])]
    case Unlock(h) =>
      var loc := th.locks[h].loc;
      if loc.DefaultLoc? then s.refs else s.refs[loc.idx := Dec16(s.refs[loc.idx])]
    case _ => s.refs
  }

  predicate WriterEnabled(s: State, w: WriterStep) {
    match w
    case StoreByte(off, _) => s.writer == Ready && |s.pages| > 0 && off < |s.pages[0]|
    case SetEcuAccess(_) => s.writer == Ready
    case PublishStart => s.writer == Ready
    case ScanPage => s.writer.Scan? && InPages(s, NextCandidate(s.writer.idx, |s.pages|))
    case CopyByte =>
      s.writer.Copy? && |s.pages| > 0 && s.writer.target < |s.pages| &&
      s.writer.k < |s.pages[0]| && s.writer.k < |s.pages[s.writer.target]|
    case AnnouncePage => s.writer.Copy? && |s.pages| > 0 && s.writer.k == |s.pages[0]|
  }

  function WriterAfter(s: State, w: WriterStep): State
    requires WriterEnabled(s, w)
  {
    match w
    case StoreByte(off, val) =>
      s.(pages := s.pages[0 := Put(s.pages[0], off, val)], trace := s.trace + [Store(off, val)])
    case SetEcuAccess(toWorking) => s.(working := toWorking)
    case PublishStart => s.(writer := Scan(s.published, s.published, 1))
    case ScanPage =>
      var n := |s.pages|;
      var pc := s.writer;
      if pc.i < n then
        var idx := NextCandidate(pc.idx, n);
        if idx != pc.pub && s.refs[idx] == 0 then s.(writer := Copy(idx, 0))
        else s.(writer := Scan(pc.pub, idx, pc.i + 1))
      else s.(writer := Ready)
    case CopyByte =>
      var pc := s.writer;
      s.(pages := s.pages[pc.target := Put(s.pages[pc.target], pc.k, s.pages[0][pc.k])],
         writer := Copy(pc.target, pc.k + 1))
    case AnnouncePage => s.(published := s.writer.target, writer := Ready, trace := s.trace + [Announce])
  }

  predicate Enabled(s: State, a: Action) {
    match a
    case Reader(t, r) => t < |s.threads| && ReaderEnabled(s, s.threads[t], r)
    case Writer(w) => WriterEnabled(s, w)
  }

  function Apply(s: State, a: Action): State
    requires Enabled(s, a)
  {
    match a
    case Reader(t, r) =>
      s.(threads := s.threads[t := ThreadAfter(s, s.threads[t], r)], refs := RefsAfter(s, s.threads[t], r))
    case Writer(w) => WriterAfter(s, w)
  }

  ghost predicate Steps(s: State, acts: seq<Action>, s': State)
    decreases |acts|
  {
    if acts == [] then s' == s
    else Enabled(s, acts[0]) && Steps(Apply(s, acts[0]), acts[1..], s')
  }

  // ---------------------------------------------------------------- counting pins

  function LockPins(locks: seq<Lock>, p: nat): nat {
    if locks == [] then 0
    else LockPins(locks[..|locks| - 1], p) + (if locks[|locks| - 1].loc == Rcu(p) then 1 else 0)
  }

  function ThreadPins(th: Thread, p: nat): nat {
    LockPins(th.locks, p) + (if th.pc == Validate(p) || th.pc == Unpin(p) then 1 else 0)
  }

  /** The number of reader pins on page `p`. */
  function Pins(threads: seq<Thread>, p: nat): nat {
    if threads == [] then 0
    else Pins(threads[..|threads| - 1], p) + ThreadPins(threads[|threads| - 1], p)
  }

  lemma {:induction false} PinsUpdate(threads: seq<Thread>, t: nat, th: Thread, p: nat)
    requires t < |threads|
    ensures Pins(threads[t := th], p) + ThreadPins(threads[t], p) == Pins(threads, p) + ThreadPins(th, p)
  {
    var last := |threads| - 1;
    if t == last {
      assert threads[t := th][..last] == threads[..last];
    } else {
      assert threads[t := th][..last] == threads[..last][t := th];
      PinsUpdate(threads[..last], t, th, p);
    }
  }

  lemma {:induction false} PinsBound(threads: seq<Thread>, t: nat, p: nat)
    requires t < |threads|
    ensures ThreadPins(threads[t], p) <= Pins(threads, p)
  {
    if t < |threads| - 1 {
      PinsBound(threads[..|threads| - 1], t, p);
    }
  }

  lemma {:induction false} LockPinsRemove(locks: seq<Lock>, h: nat, p: nat)
    requires h < |locks|
    ensures LockPins(locks, p) == LockPins(RemoveAt(locks, h), p) + (if locks[h].loc == Rcu(p) then 1 else 0)
  {
    var last := |locks| - 1;
    if h == last {
      assert RemoveAt(locks, h) == locks[..last];
    } else {
      assert RemoveAt(locks, h)[..last - 1] == RemoveAt(locks[..last], h);
      LockPinsRemove(locks[..last], h, p);
    }
  }

  lemma LockPinsAppend(locks: seq<Lock>, l: Lock, p: nat)
    ensures LockPins(locks + [l], p) == LockPins(locks, p) + (if l.loc == Rcu(p) then 1 else 0)
  {
    assert (locks + [l])[..|locks|] == locks;
  }

  lemma {:induction false} LockPinsSame(locks: seq<Lock>, h: nat, l: Lock, p: nat)
    requires h < |locks| && l.loc == locks[h].loc
    ensures LockPins(locks[h := l], p) == LockPins(locks, p)
  {
    var last := |locks| - 1;
    if h == last {
      assert locks[h := l][..last] == locks[..last];
    } else {
      assert locks[h := l][..last] == locks[..last][h := l];
      LockPinsSame(locks[..last], h, l, p);
    }
  }

  lemma {:induction false} LockIsPinned(locks: seq<Lock>, h: nat, p: nat)
    requires h < |locks| && locks[h].loc == Rcu(p)
    ensures LockPins(locks, p) > 0
  {
    LockPinsRemove(locks, h, p);
  }

  // ---------------------------------------------------------------- the invariant

  ghost predicate Shape(s: State) {
    && |s.pages| >= 3
    && |s.refs| == |s.pages|
    && (forall p :: 0 <= p < |s.pages| ==> |s.pages[p]| == |s.default|)
    && 1 <= s.published < |s.pages|
  }

  /** A page index a reader may carry. */
  ghost predicate Candidate(s: State, p: nat) { 1 <= p < |s.pages| }

  ghost predicate PcOk(s: State, pc: ReaderPc) {
    pc.Pin? || pc.Validate? || pc.Unpin? ==> Candidate(s, pc.p)
  }

  /** The page of a held lock is complete, is the version it was at lock time, and was copied out untorn. */
  ghost predicate LockOk(s: State, l: Lock) {
    var vs := Versions(s.default, s.trace);
    match l.loc
    case DefaultLoc => l.buf <= s.default
    case Rcu(p) =>
      && Candidate(s, p)
      && l.version < |vs|
      && s.pages[p] == vs[l.version]
      && l.buf <= s.pages[p]
      && (s.writer.Copy? ==> s.writer.target != p)
  }

  ghost predicate ThreadOk(s: State, th: Thread) {
    && PcOk(s, th.pc)
    && (forall h :: 0 <= h < |th.locks| ==> LockOk(s, th.locks[h]))
    && (forall i :: 0 <= i < |th.seen| ==> th.seen[i] <= Latest(s))
  }

  ghost predicate WriterOk(s: State)
    requires Shape(s)
  {
    match s.writer
    case Ready => true
    case Scan(pub, idx, i) => pub == s.published && Candidate(s, idx)
    case Copy(target, k) =>
      && Candidate(s, target) && target != s.published
      && k <= |s.default| && s.pages[target][..k] == s.pages[0][..k]
  }

  /** The writer page, the published page and the copy in progress hold what the trace says. */
  ghost predicate PagesOk(s: State) {
    && Shape(s)
    && s.pages[0] == Working(s.default, s.trace)
    && s.pages[s.published] == Versions(s.default, s.trace)[Latest(s)]
    && WriterOk(s)
  }

  ghost predicate RefsExact(s: State) {
    forall p :: 0 <= p < |s.refs| ==> s.refs[p] == Pins(s.threads, p)
  }

  ghost predicate Inv(s: State) {
    && PagesOk(s)
    && RefsExact(s)
    && (forall t :: 0 <= t < |s.threads| ==> ThreadOk(s, s.threads[t]))
  }

  lemma {:induction false} NoPins(threads: seq<Thread>, p: nat)
    requires forall t :: 0 <= t < |threads| ==> threads[t] == Thread(Idle, [], [])
    ensures Pins(threads, p) == 0
  {
    if threads != [] {
      NoPins(threads[..|threads| - 1], p);
    }
  }

  lemma InitInv(default: Page, spare: seq<Page>, threadCount: nat)
    requires SparePages(default, spare)
    ensures Inv(Init(default, spare, threadCount))
  {
    var s := Init(default, spare, threadCount);
    forall p | 0 <= p < |s.refs|
      ensures s.refs[p] == Pins(s.threads, p)
    {
      NoPins(s.threads, p);
    }
  }

  /** How one reader step changes its thread's pins on `p`. */
  lemma ThreadPinsAfter(s: State, th: Thread, r: ReaderStep, p: nat)
    requires |s.refs| == |s.pages| && ReaderEnabled(s, th, r) && p < |s.refs|
    requires ThreadPins(th, p) <= s.refs[p]
    ensures |RefsAfter(s, th, r)| == |s.refs|
    ensures RefsAfter(s, th, r)[p] + ThreadPins(th, p) == s.refs[p] + ThreadPins(ThreadAfter(s, th, r), p)
  {
    match r {
      case LockStart => if !s.working { LockPinsAppend(th.locks, Lock(DefaultLoc, 0, []), p); }
      case ValidatePage => LockPinsAppend(th.locks, Lock(Rcu(th.pc.p), Latest(s), []), p);
      case ReadByte(h) => LockPinsSame(th.locks, h, ThreadAfter(s, th, r).locks[h], p);
      case Unlock(h) => LockPinsRemove(th.locks, h, p);
      case _ =>
    }
  }

  /** The reference counts stay exact: this is what makes a zero count mean "no reader". */
  lemma StepRefs(s: State, a: Action)
    requires Inv(s) && Enabled(s, a)
    ensures RefsExact(Apply(s, a)) && |Apply(s, a).refs| == |s.refs|
  {
    if a.Reader? {
      var s', th := Apply(s, a), s.threads[a.t];
      assert ThreadOk(s, th);
      PinsBound(s.threads, a.t, 0);
      ThreadPinsAfter(s, th, a.r, 0);
      forall p | 0 <= p < |s.refs|
        ensures s'.refs[p] == Pins(s'.threads, p)
      {
        PinsBound(s.threads, a.t, p);
        ThreadPinsAfter(s, th, a.r, p);
        PinsUpdate(s.threads, a.t, ThreadAfter(s, th, a.r), p);
      }
    }
  }

  /** A page with a zero count is held by nobody. */
  lemma ZeroRefsUnheld(s: State, p: nat)
    requires RefsExact(s) && p < |s.refs| && s.refs[p] == 0
    ensures forall t, h :: 0 <= t < |s.threads| && 0 <= h < |s.threads[t].locks| ==> s.threads[t].locks[h].loc != Rcu(p)
  {
    forall t, h | 0 <= t < |s.threads| && 0 <= h < |s.threads[t].locks|
      ensures s.threads[t].locks[h].loc != Rcu(p)
    {
      PinsBound(s.threads, t, p);
      if s.threads[t].locks[h].loc == Rcu(p) {
        LockIsPinned(s.threads[t].locks, h, p);
      }
    }
  }

  /** What one reader step does to the locks of its own thread. */
  lemma OwnThreadOk(s: State, th: Thread, r: ReaderStep)
    requires Inv(s) && ThreadOk(s, th) && ReaderEnabled(s, th, r)
    ensures ThreadOk(s, ThreadAfter(s, th, r))
  {
    var th' := ThreadAfter(s, th, r);
    forall h | 0 <= h < |th'.locks|
      ensures LockOk(s, th'.locks[h])
    {
      if h < |th.locks| {
        assert LockOk(s, th.locks[h]);
      }
      if r.Unlock? && h + 1 < |th.locks| {
        assert LockOk(s, th.locks[h + 1]);
      }
    }
  }

  lemma ReaderStepInv(s: State, t: nat, r: ReaderStep)
    requires Inv(s) && Enabled(s, Reader(t, r))
    ensures Inv(Apply(s, Reader(t, r)))
  {
    var s' := Apply(s, Reader(t, r));
    StepRefs(s, Reader(t, r));
    OwnThreadOk(s, s.threads[t], r);
    forall i | 0 <= i < |s'.threads|
      ensures ThreadOk(s', s'.threads[i])
    {
      assert ThreadOk(s, s'.threads[i]);
      forall h | 0 <= h < |s'.threads[i].locks|
        ensures LockOk(s', s'.threads[i].locks[h])
      {
        assert LockOk(s, s'.threads[i].locks[h]);
      }
    }
  }

  /** The writer never touches a page that a lock is on, and never forgets a version. */
  lemma WriterKeepsLock(s: State, w: WriterStep, t: nat, h: nat)
    requires Inv(s) && WriterEnabled(s, w)
    requires t < |s.threads| && h < |s.threads[t].locks|
    ensures LockOk(WriterAfter(s, w), s.threads[t].locks[h])
  {
    var s', l := WriterAfter(s, w), s.threads[t].locks[h];
    assert ThreadOk(s, s.threads[t]);
    assert LockOk(s, l);
    if w.StoreByte? {
      VersionsGrow(s.default, s.trace, [Store(w.off, w.val)]);
    } else if w.AnnouncePage? {
      VersionsGrow(s.default, s.trace, [Announce]);
    } else if w.ScanPage? && s'.writer.Copy? {
      ZeroRefsUnheld(s, s'.writer.target);
    }
  }

  lemma StoreBytePages(s: State, w: WriterStep)
    requires PagesOk(s) && WriterEnabled(s, w) && w.StoreByte?
    ensures PagesOk(WriterAfter(s, w)) && Latest(s) == Latest(WriterAfter(s, w))
  {
    var s' := WriterAfter(s, w);
    TraceStep(s.default, s.trace, Store(w.off, w.val));
    assert s'.pages[0] == Working(s'.default, s'.trace);
    assert forall p :: 1 <= p < |s.pages| ==> s'.pages[p] == s.pages[p];
  }

  lemma AnnouncePages(s: State, w: WriterStep)
    requires PagesOk(s) && WriterEnabled(s, w) && w.AnnouncePage?
    ensures PagesOk(WriterAfter(s, w)) && Latest(s) < Latest(WriterAfter(s, w))
  {
    TraceStep(s.default, s.trace, Announce);
    assert s.pages[s.writer.target][..|s.default|] == s.pages[s.writer.target];
    assert s.pages[0][..|s.default|] == s.pages[0];
  }

  lemma CopyBytePages(s: State, w: WriterStep)
    requires PagesOk(s) && WriterEnabled(s, w) && w.CopyByte?
    ensures PagesOk(WriterAfter(s, w)) && Latest(s) == Latest(WriterAfter(s, w))
  {
    var s' := WriterAfter(s, w);
    var target, k := s.writer.target, s.writer.k;
    assert s'.pages[target][..k + 1] == s.pages[target][..k] + [s.pages[0][k]];
    assert s.pages[0][..k + 1] == s.pages[0][..k] + [s.pages[0][k]];
  }

  lemma WriterStepPages(s: State, w: WriterStep)
    requires PagesOk(s) && WriterEnabled(s, w)
    ensures PagesOk(WriterAfter(s, w)) && Latest(s) <= Latest(WriterAfter(s, w))
  {
    match w
    case StoreByte(_, _) => StoreBytePages(s, w);
    case CopyByte => CopyBytePages(s, w);
    case AnnouncePage => AnnouncePages(s, w);
    case _ =>
  }

  lemma WriterStepInv(s: State, w: WriterStep)
    requires Inv(s) && WriterEnabled(s, w)
    ensures Inv(WriterAfter(s, w))
  {
    StepRefs(s, Writer(w));
    WriterStepPages(s, w);
    var s' := WriterAfter(s, w);
    forall t | 0 <= t < |s'.threads|
      ensures ThreadOk(s', s'.threads[t])
    {
      assert ThreadOk(s, s.threads[t]);
      forall h | 0 <= h < |s.threads[t].locks|
        ensures LockOk(s', s.threads[t].locks[h])
      {
        WriterKeepsLock(s, w, t, h);
      }
    }
  }

  lemma StepInv(s: State, a: Action)
    requires Inv(s) && Enabled(s, a)
    ensures Inv(Apply(s, a))
  {
    match a
    case Reader(t, r) => ReaderStepInv(s, t, r);
    case Writer(w) => WriterStepInv(s, w);
  }

  lemma {:induction false} RunInv(s: State, acts: seq<Action>, s': State)
    requires Inv(s) && Steps(s, acts, s')
    ensures Inv(s')
    decreases |acts|
  {
    if acts != [] {
      StepInv(s, acts[0]);
      RunInv(Apply(s, acts[0]), acts[1..], s');
    }
  }

  // ---------------------------------------------------------------- refinement of the register

  function AbsLock(l: Lock): Hold {
    Hold(if l.loc.DefaultLoc? then Default else Version(l.version), l.buf)
  }

  function AbsThread(th: Thread): Client {
    Client(seq(|th.locks|, i requires 0 <= i < |th.locks| => AbsLock(th.locks[i])), th.seen)
  }

  /** What the algorithm means: the register it implements. */
  function Abs(s: State): Register {
    Register(s.default, s.trace, seq(|s.threads|, i requires 0 <= i < |s.threads| => AbsThread(s.threads[i])))
  }

  /** The register operation at whose place a step takes effect. */
  function ReaderOp(s: State, t: nat, th: Thread, r: ReaderStep): Op
    requires ReaderEnabled(s, th, r)
  {
    match r
    case LockStart => if s.working then Skip else Take(t, Default)
    case ValidatePage => if s.published == th.pc.p then Take(t, Version(Latest(s))) else Skip
    case ReadByte(h) => Read(t, h)
    case Unlock(h) => Drop(t, h)
    case _ => Skip
  }

  function OpOf(s: State, a: Action): Op
    requires Enabled(s, a)
  {
    match a
    case Reader(t, r) => ReaderOp(s, t, s.threads[t], r)
    case Writer(w) =>
      (match w
       case StoreByte(off, val) => Write(Store(off, val))
       case AnnouncePage => Write(Announce)
       case _ => Skip)
  }

  function Ops(s: State, acts: seq<Action>): (ops: seq<Op>)
    decreases |acts|
  {
    if acts == [] || !Enabled(s, acts[0]) then []
    else [OpOf(s, acts[0])] + Ops(Apply(s, acts[0]), acts[1..])
  }


  lemma ThreadRefines(s: State, t: nat, th: Thread, r: ReaderStep)
    requires Shape(s) && ThreadOk(s, th) && ReaderEnabled(s, th, r)
    ensures var op := ReaderOp(s, t, th, r);
      if op == Skip then AbsThread(ThreadAfter(s, th, r)) == AbsThread(th)
      else ClientEnabled(s.default, s.trace, AbsThread(th), op) &&
           ClientAfter(s.default, s.trace, AbsThread(th), op) == AbsThread(ThreadAfter(s, th, r))
  {
    var op := ReaderOp(s, t, th, r);
    if r.ReadByte? {
      assert LockOk(s, th.locks[r.h]);
    }
    if op != Skip {
      assert AbsThread(ThreadAfter(s, th, r)).holds == ClientAfter(s.default, s.trace, AbsThread(th), op).holds;
    }
  }

  lemma ReaderStepRefines(s: State, t: nat, r: ReaderStep)
    requires Inv(s) && Enabled(s, Reader(t, r))
    ensures VersionRegister.Enabled(Abs(s), OpOf(s, Reader(t, r)))
    ensures Abs(Apply(s, Reader(t, r))) == VersionRegister.Apply(Abs(s), OpOf(s, Reader(t, r)))
  {
    assert ThreadOk(s, s.threads[t]);
    ThreadRefines(s, t, s.threads[t], r);
    var op := OpOf(s, Reader(t, r));
    assert Abs(Apply(s, Reader(t, r))).clients == VersionRegister.Apply(Abs(s), op).clients;
  }

  lemma StepRefines(s: State, a: Action)
    requires Inv(s) && Enabled(s, a)
    ensures VersionRegister.Enabled(Abs(s), OpOf(s, a))
    ensures Abs(Apply(s, a)) == VersionRegister.Apply(Abs(s), OpOf(s, a))
  {
    match a
    case Reader(t, r) => ReaderStepRefines(s, t, r);
    case Writer(_) =>
  }

  /** Every run of the algorithm is a run of the abstract register. */
  lemma {:induction false} RunRefines(s: State, acts: seq<Action>, s': State)
    requires Inv(s) && Steps(s, acts, s')
    ensures Runs(Abs(s), Ops(s, acts), Abs(s'))
    decreases |acts|
  {
    if acts != [] {
      StepRefines(s, acts[0]);
      StepInv(s, acts[0]);
      RunRefines(Apply(s, acts[0]), acts[1..], s');
    }
  }

  // ---------------------------------------------------------------- main results

  /**
    Safety over whole runs, for one writer and any number of readers: the pages under a lock are
    complete versions, what a reader copied is a prefix of exactly one of them, and the versions
    a thread obtained never go back.
   */
  lemma ReadersSeeCompleteVersions(default: Page, spare: seq<Page>, threadCount: nat, acts: seq<Action>, s: State,
                                   t: nat)
    requires SparePages(default, spare) && Steps(Init(default, spare, threadCount), acts, s)
    requires t < |s.threads|
    ensures Runs(VersionRegister.Init(default, threadCount), Ops(Init(default, spare, threadCount), acts), Abs(s))
    ensures Consistent(Abs(s))
    ensures forall h :: 0 <= h < |s.threads[t].locks| ==> LockOk(s, s.threads[t].locks[h])
    ensures forall i, j :: 0 <= i < j < |s.threads[t].seen| ==> s.threads[t].seen[i] <= s.threads[t].seen[j]
  {
    var s0 := Init(default, spare, threadCount);
    InitInv(default, spare, threadCount);
    RunInv(s0, acts, s);
    assert ThreadOk(s, s.threads[t]);
    RunRefines(s0, acts, s);
    assert forall i :: 0 <= i < threadCount ==> Abs(s0).clients[i].holds == [];
    assert Abs(s0) == VersionRegister.Init(default, threadCount);
    RunConsistent(Abs(s0), Ops(s0, acts), Abs(s));
    assert ClientConsistent(Abs(s), Abs(s).clients[t]);
  }

  /** No step of any thread writes a page while some thread has a validated lock on it. */
  lemma LockedPageIsNotWritten(s: State, a: Action, t: nat, h: nat)
    requires Inv(s) && Enabled(s, a)
    requires t < |s.threads| && h < |s.threads[t].locks| && s.threads[t].locks[h].loc.Rcu?
    ensures var p := s.threads[t].locks[h].loc.idx;
      p < |s.pages| == |Apply(s, a).pages| && Apply(s, a).pages[p] == s.pages[p]
  {
    assert ThreadOk(s, s.threads[t]);
    assert LockOk(s, s.threads[t].locks[h]);
  }

  /** A lock that validates returns the newest announced version. */
  lemma ValidatedLockIsNewest(s: State, t: nat)
    requires Inv(s) && Enabled(s, Reader(t, ValidatePage)) && s.published == s.threads[t].pc.p
    ensures var th := Apply(s, Reader(t, ValidatePage)).threads[t];
      && |th.locks| == |s.threads[t].locks| + 1
      && th.locks[|s.threads[t].locks|].loc == Rcu(s.published)
      && s.pages[s.published] == Versions(s.default, s.trace)[Latest(s)]
      && th.locks[|s.threads[t].locks|].version == Latest(s)
  {
  }

  // ---------------------------------------------------------------- publishing while no reader moves

  /** The page that the scan takes when it has reached `idx` in round `i`, or |refs| if there is none. */
  function FirstFree(refs: seq<nat>, pub: nat, idx: nat, i: nat): nat
    decreases |refs| - i
  {
    if i >= |refs| then |refs|
    else
      var next := NextCandidate(idx, |refs|);
      if next < |refs| && next != pub && refs[next] == 0 then next
      else FirstFree(refs, pub, next, i + 1)
  }

  /** The state after one undisturbed publish. */
  function PublishResult(s: State): State
    requires |s.pages| > 0
  {
    var target := FirstFree(s.refs, s.published, s.published, 1);
    if target >= |s.pages| then s
    else s.(pages := s.pages[target := s.pages[0]], published := target, trace := s.trace + [Announce])
  }

  /** The `j`-th candidate after `pub` in cyclic order over 1..n-1. */
  function CyclicCandidate(pub: nat, j: nat, n: nat): nat
    requires 1 <= pub < n && j < n
  {
    if pub + j < n then pub + j else pub + j - (n - 1)
  }

  lemma {:induction false} FirstFreeFrom(refs: seq<nat>, pub: nat, i: nat)
    requires 1 <= pub < |refs| && 1 <= i <= |refs|
    ensures var target := FirstFree(refs, pub, CyclicCandidate(pub, i - 1, |refs|), i);
      if target == |refs| then
        forall j :: i <= j < |refs| - 1 ==> refs[CyclicCandidate(pub, j, |refs|)] != 0
      else
        exists j :: i <= j < |refs| - 1 && target == CyclicCandidate(pub, j, |refs|) && target != pub &&
          refs[target] == 0 &&
          forall k :: i <= k < j ==> refs[CyclicCandidate(pub, k, |refs|)] != 0
    decreases |refs| - i
  {
    if i < |refs| {
      assert NextCandidate(CyclicCandidate(pub, i - 1, |refs|), |refs|) == CyclicCandidate(pub, i, |refs|);
      FirstFreeFrom(refs, pub, i + 1);
    }
  }

  /** The scan is complete and fair: it fails iff every candidate is pinned, and takes the first free one. */
  lemma ScanIsComplete(refs: seq<nat>, pub: nat)
    requires 1 <= pub < |refs|
    ensures var target := FirstFree(refs, pub, pub, 1);
      && (target == |refs| <==> forall p :: 1 <= p < |refs| && p != pub ==> refs[p] != 0)
      && (target != |refs| ==> 1 <= target < |refs| && target != pub && refs[target] == 0)
  {
    FirstFreeFrom(refs, pub, 1);
    var n := |refs|;
    if FirstFree(refs, pub, pub, 1) == n {
      forall p | 1 <= p < n && p != pub
        ensures refs[p] != 0
      {
        assert p == CyclicCandidate(pub, if p > pub then p - pub else p + (n - 1) - pub, n);
      }
    }
  }

  lemma {:induction false} StepsConcat(s: State, acts: seq<Action>, s': State, more: seq<Action>, s'': State)
    requires Steps(s, acts, s') && Steps(s', more, s'')
    ensures Steps(s, acts + more, s'')
    decreases |acts|
  {
    if acts == [] {
      assert acts + more == more;
    } else {
      assert (acts + more)[1..] == acts[1..] + more;
      StepsConcat(Apply(s, acts[0]), acts[1..], s', more, s'');
    }
  }

  /** Steps of the writer inside one attempt to publish; an announcement is the last of them. */
  ghost predicate InAttempt(acts: seq<Action>) {
    forall i :: 0 <= i < |acts| ==>
      && acts[i].Writer? && (acts[i].w.ScanPage? || acts[i].w.CopyByte? || acts[i].w.AnnouncePage?)
      && (acts[i].w.AnnouncePage? ==> i == |acts| - 1)
  }

  lemma {:induction false} ScanAlone(s: State) returns (acts: seq<Action>)
    requires Shape(s) && s.writer.Scan? && s.writer.pub == s.published && s.writer.idx < |s.refs|
    ensures InAttempt(acts) && forall i :: 0 <= i < |acts| ==> acts[i].w.ScanPage?
    ensures var target := FirstFree(s.refs, s.published, s.writer.idx, s.writer.i);
      Steps(s, acts, if target == |s.refs| then s.(writer := Ready) else s.(writer := Copy(target, 0)))
    decreases |s.refs| - s.writer.i
  {
    var s1 := Apply(s, Writer(ScanPage));
    acts := [Writer(ScanPage)];
    assert Steps(s1, [], s1);
    if s1.writer.Scan? {
      var rest := ScanAlone(s1);
      acts := acts + rest;
    }
  }

  lemma {:induction false} CopyAlone(s: State) returns (acts: seq<Action>)
    requires Shape(s) && s.writer.Copy? && 1 <= s.writer.target < |s.pages| && s.writer.k <= |s.default|
    requires s.pages[s.writer.target][..s.writer.k] == s.pages[0][..s.writer.k]
    ensures InAttempt(acts)
    ensures Steps(s, acts, s.(pages := s.pages[s.writer.target := s.pages[0]], published := s.writer.target,
                              writer := Ready, trace := s.trace + [Announce]))
    decreases |s.default| - s.writer.k
  {
    var target, k := s.writer.target, s.writer.k;
    if k == |s.default| {
      acts := [Writer(AnnouncePage)];
      assert s.pages[target] == s.pages[target][..k] == s.pages[0][..k] == s.pages[0];
      assert s.pages == s.pages[target := s.pages[0]];
      var s1 := Apply(s, acts[0]);
      assert Steps(s1, [], s1);
    } else {
      var s1 := Apply(s, Writer(CopyByte));
      assert s1.pages[target][..k + 1] == s.pages[target][..k] + [s.pages[0][k]];
      assert s.pages[0][..k + 1] == s.pages[0][..k] + [s.pages[0][k]];
      var rest := CopyAlone(s1);
      acts := [Writer(CopyByte)] + rest;
      assert s1.pages[target := s1.pages[0]] == s.pages[target := s.pages[0]];
    }
  }

  /**
    The machine, run by the writer alone, computes `PublishResult`: the round robin scan, the copy
    and the announcement.
   */
  lemma PublishAlone(s: State) returns (acts: seq<Action>)
    requires Inv(s) && s.writer == Ready
    ensures Steps(s, acts, PublishResult(s)) && acts != [] && acts[0] == Writer(PublishStart) && InAttempt(acts[1..])
    ensures PublishResult(s) == s <==> forall p :: 1 <= p < |s.refs| && p != s.published ==> s.refs[p] != 0
  {
    ScanIsComplete(s.refs, s.published);
    var s1 := Apply(s, Writer(PublishStart));
    var scan := ScanAlone(s1);
    acts := [Writer(PublishStart)] + scan;
    var target := FirstFree(s.refs, s.published, s.published, 1);
    if target != |s.refs| {
      var s2 := s1.(writer := Copy(target, 0));
      var copy := CopyAlone(s2);
      StepsConcat(s1, scan, s2, copy, PublishResult(s));
      acts := [Writer(PublishStart)] + (scan + copy);
    } else {
      assert s1.(writer := Ready) == s;
    }
  }
}
