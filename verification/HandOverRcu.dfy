/**
  Lock count and page hand-over (the default algorithm): the wait-free RCU of a calibration
  segment as a state machine. One action is one atomic access, or one byte of a memcpy.

  Three pages rotate through the roles writer page, ECU page and free page. The reader that takes
  the first lock takes a published page over and hands the old ECU page back; the next first lock
  that finds nothing to take over confirms that nobody uses the free page any more.
 */
module HandOverRcu {
  import opened Bytes
  import opened VersionRegister

  datatype Option<T> = None | Some(value: T)

  datatype Loc = DefaultLoc | Rcu(idx: nat)

  datatype Lock = Lock(loc: Loc, version: nat, buf: seq<Byte>)

  /** The RCU state in the segment header; a page is named by its place. */
  datatype Header = Header(ecu: nat, next: nat, free: Option<nat>, xcp: nat, hazard: bool, lockCount: nat)

  datatype ReaderPc =
    | Idle
    | LoadNext
    | LoadCurrent(next: nat)
    | SetHazard(next: nat, cur: nat)
    | StoreEcu(next: nat, cur: nat)
    | StoreFree(cur: nat)
    | ClearHazard
    | LoadAccess
    | LoadPage

  datatype Thread = Thread(pc: ReaderPc, locks: seq<Lock>, seen: seq<nat>)

  datatype WriterPc =
    | Ready
    | LoadHazard(page: nat)
    | TakeFree(page: nat)
    | Copy(target: nat, k: nat)
    | StoreNext(prev: nat)

  /** What has become of the page that is neither writer page nor ECU page. Bookkeeping only. */
  datatype Role = IsFree | IsClaimed | IsPending | IsInTransit

  datatype State = State(
    default: Page,
    pages: seq<Page>,
    h: Header,
    working: bool,
    threads: seq<Thread>,
    writer: WriterPc,
    trace: seq<WriterEvent>,
    versionOf: seq<nat>,
    role: Role)

  datatype ReaderStep =
    | LockStart
    | ReadNext
    | ReadCurrent
    | MarkHazard
    | TakeOver
    | HandBack
    | ResetHazard
    | ReadAccess
    | ReadPage
    | ReadByte(n: nat)
    | Unlock(n: nat)

  datatype WriterStep =
    | StoreByte(off: nat, val: Byte)
    | SetEcuAccess(toWorking: bool)
    | PublishStart
    | TestHazard
    | ClearFree
    | CopyByte
    | SwapPage
    | AnnounceNext

  datatype Action = Reader(t: nat, r: ReaderStep) | Writer(w: WriterStep)

  const LOCK_MAX := 65535

  /** The lock count is 16 bits wide. */
  function Inc16(x: nat): nat { (x + 1) % (LOCK_MAX + 1) }
  function Dec16(x: nat): nat { if x == 0 then LOCK_MAX else x - 1 }

  function Init(default: Page, spare: Page, threadCount: nat): State {
    State(default, [default, default, spare], Header(1, 1, Some(2), 0, false, 0), true,
          seq(threadCount, _ => Thread(Idle, [], [])), Ready, [], [0, 0, 0], IsFree)
  }

  function PageAt(s: State, loc: Loc): Page {
    match loc
    case DefaultLoc => s.default
    case Rcu(idx) => if idx < |s.pages| then s.pages[idx] else []
  }

  function Latest(s: State): nat { |Versions(s.default, s.trace)| - 1 }

  function EcuVersion(s: State): nat { if s.h.ecu < |s.versionOf| then s.versionOf[s.h.ecu] else 0 }

  predicate ReaderEnabled(s: State, th: Thread, r: ReaderStep) {
    match r
    // The user contract: at most 65535 locks on one segment
    case LockStart => th.pc == Idle && s.h.lockCount < LOCK_MAX
    case ReadNext => th.pc == LoadNext
    case ReadCurrent => th.pc.LoadCurrent?
    case MarkHazard => th.pc.SetHazard?
    case TakeOver => th.pc.StoreEcu?
    case HandBack => th.pc.StoreFree?
    case ResetHazard => th.pc == ClearHazard
    case ReadAccess => th.pc == LoadAccess
    case ReadPage => th.pc == LoadPage
    case ReadByte(n) => th.pc == Idle && n < |th.locks| && |th.locks[n].buf| < |PageAt(s, th.locks[n].loc)|
    case Unlock(n) => th.pc == Idle && n < |th.locks|
  }

  function ThreadAfter(s: State, th: Thread, r: ReaderStep): Thread
    requires ReaderEnabled(s, th, r)
  {
    match r
    case LockStart => th.(pc := if s.h.lockCount == 0 then LoadNext else LoadAccess)
    case ReadNext => th.(pc := LoadCurrent(s.h.next))
    case ReadCurrent => th.(pc := if s.h.ecu != th.pc.next then SetHazard(th.pc.next, s.h.ecu) else ClearHazard)
    case MarkHazard => th.(pc := StoreEcu(th.pc.next, th.pc.cur))
    case TakeOver => th.(pc := StoreFree(th.pc.cur))
    case HandBack => th.(pc := LoadAccess)
    case ResetHazard => th.(pc := LoadAccess)
    case ReadAccess =>
      if s.working then th.(pc := LoadPage)
      else th.(pc := Idle, locks := th.locks + [Lock(DefaultLoc, 0, [])])
    case ReadPage => Thread(Idle, th.locks + [Lock(Rcu(s.h.ecu), EcuVersion(s), [])], th.seen + [EcuVersion(s)])
    case ReadByte(n) =>
      var l := th.locks[n];
      th.(locks := th.locks[n := l.(buf := l.buf + [PageAt(s, l.loc)[|l.buf|]])])
    case Unlock(n) => th.(locks := RemoveAt(th.locks, n))
  }

  function HeaderAfter(s: State, th: Thread, r: ReaderStep): Header
    requires ReaderEnabled(s, th, r)
  {
    match r
    case LockStart => s.h.(lockCount := Inc16(s.h.lockCount))
    case MarkHazard => s.h.(hazard := true)
    case TakeOver => s.h.(ecu := th.pc.next)
    case HandBack => s.h.(free := Some(th.pc.cur))
    case ResetHazard => s.h.(hazard := false)
    case Unlock(_) => s.h.(lockCount := Dec16(s.h.lockCount))
    case _ => s.h
  }

  function RoleAfter(s: State, r: ReaderStep): Role {
    match r
    case TakeOver => IsInTransit
    case HandBack => IsFree
    case _ => s.role
  }

  predicate WriterEnabled(s: State, w: WriterStep) {
    match w
    case StoreByte(off, _) => s.writer == Ready && s.h.xcp < |s.pages| && off < |s.pages[s.h.xcp]|
    case SetEcuAccess(_) => s.writer == Ready
    case PublishStart => s.writer == Ready
    case TestHazard => s.writer.LoadHazard?
    case ClearFree => s.writer.TakeFree?
    case CopyByte =>
      s.writer.Copy? && s.h.xcp < |s.pages| && s.writer.target < |s.pages| &&
      s.writer.k < |s.pages[s.h.xcp]| && s.writer.k < |s.pages[s.writer.target]|
    case SwapPage => s.writer.Copy? && s.h.xcp < |s.pages| && s.writer.k == |s.pages[s.h.xcp]|
    case AnnounceNext => s.writer.StoreNext? && s.writer.prev < |s.versionOf|
  }

  function WriterAfter(s: State, w: WriterStep): State
    requires WriterEnabled(s, w)
  {
    match w
    case StoreByte(off, val) =>
      s.(pages := s.pages[s.h.xcp := Put(s.pages[s.h.xcp], off, val)], trace := s.trace + [Store(off, val)])
    case SetEcuAccess(toWorking) => s.(working := toWorking)
    case PublishStart => if s.h.free.None? then s else s.(writer := LoadHazard(s.h.free.value))
    case TestHazard => s.(writer := if s.h.hazard then Ready else TakeFree(s.writer.page))
    case ClearFree => s.(h := s.h.(free := None), writer := Copy(s.writer.page, 0), role := IsClaimed)
    case CopyByte =>
      var pc := s.writer;
      s.(pages := s.pages[pc.target := Put(s.pages[pc.target], pc.k, s.pages[s.h.xcp][pc.k])],
         writer := Copy(pc.target, pc.k + 1))
    case SwapPage => s.(h := s.h.(xcp := s.writer.target), writer := StoreNext(s.h.xcp))
    case AnnounceNext =>
      s.(h := s.h.(next := s.writer.prev), writer := Ready, trace := s.trace + [Announce], role := IsPending,
         versionOf := s.versionOf[s.writer.prev := Latest(s) + 1])
  }

  predicate Enabled(s: State, a: Action) {
    match a
    case Reader(t, r) => t < |s.threads| && ReaderEnabled(s, s.threads[t], r)
    case Writer(w) => WriterEnabled(s, w)
  }

  function Apply(s: State, a: Action): State
    requires Enabled(s, a)
  {
    match a
    case Reader(t, r) =>
      s.(threads := s.threads[t := ThreadAfter(s, s.threads[t], r)], h := HeaderAfter(s, s.threads[t], r),
         role := RoleAfter(s, r))
    case Writer(w) => WriterAfter(s, w)
  }

  ghost predicate Steps(s: State, acts: seq<Action>, s': State)
    decreases |acts|
  {
    if acts == [] then s' == s
    else Enabled(s, acts[0]) && Steps(Apply(s, acts[0]), acts[1..], s')
  }

  // ---------------------------------------------------------------- counting locks

  function Counted(th: Thread): nat {
    |th.locks| + (if th.pc == Idle then 0 else 1)
  }

  function CountAll(threads: seq<Thread>): nat {
    if threads == [] then 0
    else CountAll(threads[..|threads| - 1]) + Counted(threads[|threads| - 1])
  }

  lemma {:induction false} CountUpdate(threads: seq<Thread>, t: nat, th: Thread)
    requires t < |threads|
    ensures CountAll(threads[t := th]) + Counted(threads[t]) == CountAll(threads) + Counted(th)
    ensures Counted(threads[t]) <= CountAll(threads)
  {
    var last := |threads| - 1;
    if t == last {
      assert threads[t := th][..last] == threads[..last];
    } else {
      assert threads[t := th][..last] == threads[..last][t := th];
      CountUpdate(threads[..last], t, th);
    }
  }

  // ---------------------------------------------------------------- the invariant

  /** The page that is neither the writer page nor the ECU page. */
  function Third(h: Header): int { 3 - h.xcp - h.ecu }

  ghost predicate Shape(s: State) {
    && |s.pages| == 3 && |s.versionOf| == 3
    && (forall p :: 0 <= p < 3 ==> |s.pages[p]| == |s.default|)
    && s.h.xcp < 3 && s.h.ecu < 3 && s.h.xcp != s.h.ecu
  }

  /** The three pages are a partition of the roles, whatever the writer and the readers are doing. */
  ghost predicate RolesOk(s: State)
    requires Shape(s)
  {
    match s.role
    case IsFree =>
      && s.h.next == s.h.ecu && s.h.free == Some(Third(s.h))
      && (s.writer == Ready || s.writer == LoadHazard(Third(s.h)) || (s.writer == TakeFree(Third(s.h)) && !s.h.hazard))
    case IsClaimed =>
      && s.h.next == s.h.ecu && s.h.free == None
      && (s.writer == StoreNext(Third(s.h)) || (s.writer.Copy? && s.writer.target == Third(s.h)))
    case IsPending => s.h.next == Third(s.h) && s.h.free == None && s.writer == Ready
    case IsInTransit =>
      && s.h.next == s.h.ecu && s.h.free == None && s.writer == Ready
      && exists t :: 0 <= t < |s.threads| && s.threads[t].pc.StoreFree?
  }

  ghost predicate PagesOk(s: State)
    requires Shape(s)
  {
    && s.pages[s.h.xcp] == Working(s.default, s.trace)
    && (s.writer.Copy? ==>
          s.writer.target < 3 && s.writer.k <= |s.default| &&
          s.pages[s.writer.target][..s.writer.k] == s.pages[s.h.xcp][..s.writer.k])
    && (s.writer.StoreNext? ==> s.writer.prev < 3 && s.pages[s.writer.prev] == Working(s.default, s.trace))
  }

  ghost predicate VersionsOk(s: State)
    requires Shape(s)
  {
    var vs := Versions(s.default, s.trace);
    && s.h.next < 3 && s.versionOf[s.h.next] == Latest(s) && s.pages[s.h.next] == vs[Latest(s)]
    && s.versionOf[s.h.ecu] < |vs| && s.pages[s.h.ecu] == vs[s.versionOf[s.h.ecu]]
  }

  /** Inside the code that only the reader with the first lock runs. */
  predicate InFirst(pc: ReaderPc) {
    pc.LoadNext? || pc.LoadCurrent? || pc.SetHazard? || pc.StoreEcu? || pc.StoreFree? || pc.ClearHazard?
  }

  /** ... and before the old ECU page has been replaced or confirmed as unused. */
  predicate Early(pc: ReaderPc) {
    InFirst(pc) && !pc.StoreFree?
  }

  ghost predicate PcOk(s: State, pc: ReaderPc) {
    match pc
    case LoadCurrent(next) => next == s.h.ecu || (s.role == IsPending && next == s.h.next)
    case SetHazard(next, cur) => s.role == IsPending && next == s.h.next && cur == s.h.ecu
    case StoreEcu(next, cur) => s.role == IsPending && next == s.h.next && cur == s.h.ecu && s.h.hazard
    case StoreFree(cur) => s.role == IsInTransit && cur == Third(s.h) && s.h.hazard
    case _ => true
  }

  /** A page that readers may hold: the ECU page, or the third page while it is marked as a hazard. */
  ghost predicate MayHold(s: State, p: nat) {
    || p == s.h.ecu
    || (&& p == Third(s.h) && s.h.hazard && (s.role == IsFree || s.role == IsInTransit)
        && forall t :: 0 <= t < |s.threads| ==> !Early(s.threads[t].pc))
  }

  ghost predicate LockOk(s: State, l: Lock) {
    var vs := Versions(s.default, s.trace);
    match l.loc
    case DefaultLoc => l.buf <= s.default
    case Rcu(p) =>
      && p < |s.pages|
      && l.version < |vs|
      && s.pages[p] == vs[l.version]
      && l.buf <= s.pages[p]
      && MayHold(s, p)
  }

  ghost predicate ThreadOk(s: State, th: Thread) {
    && PcOk(s, th.pc)
    && (forall n :: 0 <= n < |th.locks| ==> LockOk(s, th.locks[n]))
    && (forall i :: 0 <= i < |th.seen| ==> th.seen[i] <= EcuVersion(s))
  }

  ghost predicate OneFirst(s: State) {
    forall t, u ::
      0 <= t < |s.threads| && 0 <= u < |s.threads| && InFirst(s.threads[t].pc) && InFirst(s.threads[u].pc) ==> t == u
  }

  ghost predicate Inv(s: State) {
    && Shape(s)
    && s.h.lockCount == CountAll(s.threads) <= LOCK_MAX
    && RolesOk(s)
    && PagesOk(s)
    && VersionsOk(s)
    && OneFirst(s)
    && (forall t :: 0 <= t < |s.threads| ==> ThreadOk(s, s.threads[t]))
  }

  lemma {:induction false} NoCount(threads: seq<Thread>)
    requires forall t :: 0 <= t < |threads| ==> threads[t] == Thread(Idle, [], [])
    ensures CountAll(threads) == 0
  {
    if threads != [] {
      NoCount(threads[..|threads| - 1]);
    }
  }

  lemma InitInv(default: Page, spare: Page, threadCount: nat)
    requires |spare| == |default|
    ensures Inv(Init(default, spare, threadCount))
  {
    NoCount(Init(default, spare, threadCount).threads);
  }

  /** With a lock count of zero nobody holds a lock and nobody is inside a lock operation. */
  lemma Unlocked(s: State, t: nat)
    requires s.h.lockCount == CountAll(s.threads) == 0 && t < |s.threads|
    ensures s.threads[t].pc == Idle && s.threads[t].locks == []
  {
    CountUpdate(s.threads, t, s.threads[t]);
  }

  lemma StepCount(s: State, a: Action)
    requires s.h.lockCount == CountAll(s.threads) <= LOCK_MAX && Enabled(s, a)
    ensures Apply(s, a).h.lockCount == CountAll(Apply(s, a).threads) <= LOCK_MAX
  {
    if a.Reader? {
      CountUpdate(s.threads, a.t, ThreadAfter(s, s.threads[a.t], a.r));
    }
  }

  lemma ReaderShape(s: State, t: nat, r: ReaderStep)
    requires Shape(s) && Enabled(s, Reader(t, r)) && PcOk(s, s.threads[t].pc)
    requires RolesOk(s)
    ensures Shape(Apply(s, Reader(t, r)))
  {
  }

  lemma ReaderRoles(s: State, t: nat, r: ReaderStep)
    requires Shape(s) && RolesOk(s) && Enabled(s, Reader(t, r)) && PcOk(s, s.threads[t].pc)
    ensures Shape(Apply(s, Reader(t, r))) && RolesOk(Apply(s, Reader(t, r)))
  {
    ReaderShape(s, t, r);
    var s' := Apply(s, Reader(t, r));
    assert s'.threads[t] == ThreadAfter(s, s.threads[t], r);
    if s.role == IsInTransit {
      var u :| 0 <= u < |s.threads| && s.threads[u].pc.StoreFree?;
      assert s'.threads[u].pc.StoreFree? || u == t;
    }
  }

  lemma ReaderPages(s: State, t: nat, r: ReaderStep)
    requires Shape(s) && RolesOk(s) && PagesOk(s) && VersionsOk(s) && Enabled(s, Reader(t, r))
    requires PcOk(s, s.threads[t].pc)
    ensures var s' := Apply(s, Reader(t, r));
      Shape(s') && PagesOk(s') && VersionsOk(s') && EcuVersion(s) <= EcuVersion(s')
  {
    ReaderShape(s, t, r);
  }

  lemma ReaderOneFirst(s: State, t: nat, r: ReaderStep)
    requires s.h.lockCount == CountAll(s.threads) && OneFirst(s) && Enabled(s, Reader(t, r))
    ensures OneFirst(Apply(s, Reader(t, r)))
  {
    var s' := Apply(s, Reader(t, r));
    assert s'.threads[t] == ThreadAfter(s, s.threads[t], r);
    if r.LockStart? && s.h.lockCount == 0 {
      forall u | 0 <= u < |s.threads|
        ensures s.threads[u].pc == Idle
      {
        Unlocked(s, u);
      }
    }
  }

  lemma ReaderStepHeader(s: State, t: nat, r: ReaderStep)
    requires Shape(s) && s.h.lockCount == CountAll(s.threads) && RolesOk(s) && PagesOk(s) && VersionsOk(s)
    requires OneFirst(s)
    requires Enabled(s, Reader(t, r)) && PcOk(s, s.threads[t].pc)
    ensures var s' := Apply(s, Reader(t, r));
      Shape(s') && RolesOk(s') && PagesOk(s') && VersionsOk(s') && OneFirst(s') && EcuVersion(s) <= EcuVersion(s')
  {
    ReaderRoles(s, t, r);
    ReaderPages(s, t, r);
    ReaderOneFirst(s, t, r);
  }

  /** No reader step makes a page unsafe that somebody holds. */
  lemma MayHoldKept(s: State, t: nat, r: ReaderStep, u: nat, n: nat)
    requires Inv(s) && Enabled(s, Reader(t, r))
    requires u < |s.threads| && n < |s.threads[u].locks| && s.threads[u].locks[n].loc.Rcu?
    ensures MayHold(Apply(s, Reader(t, r)), s.threads[u].locks[n].loc.idx)
  {
    var s' := Apply(s, Reader(t, r));
    assert ThreadOk(s, s.threads[u]);
    assert LockOk(s, s.threads[u].locks[n]);
    assert ThreadOk(s, s.threads[t]);
    CountUpdate(s.threads, u, s.threads[u]);
    assert s'.threads[t] == ThreadAfter(s, s.threads[t], r);
    forall v | 0 <= v < |s'.threads| && v != t
      ensures s'.threads[v] == s.threads[v]
    {
    }
  }

  lemma ReaderLocks(s: State, t: nat, r: ReaderStep, u: nat)
    requires Inv(s) && Enabled(s, Reader(t, r)) && u < |s.threads|
    ensures var s' := Apply(s, Reader(t, r));
      forall n :: 0 <= n < |s'.threads[u].locks| ==> LockOk(s', s'.threads[u].locks[n])
  {
    var s' := Apply(s, Reader(t, r));
    var th, th' := s.threads[u], s'.threads[u];
    assert ThreadOk(s, th);
    forall n | 0 <= n < |th'.locks|
      ensures LockOk(s', th'.locks[n])
    {
      var m := if u == t && r.Unlock? && n >= r.n then n + 1 else n;
      if m < |th.locks| {
        assert LockOk(s, th.locks[m]);
        if th.locks[m].loc.Rcu? {
          MayHoldKept(s, t, r, u, m);
        }
      }
    }
  }

  lemma ReaderPcs(s: State, t: nat, r: ReaderStep, u: nat)
    requires Inv(s) && Enabled(s, Reader(t, r)) && u < |s.threads|
    ensures PcOk(Apply(s, Reader(t, r)), Apply(s, Reader(t, r)).threads[u].pc)
  {
    assert ThreadOk(s, s.threads[t]) && ThreadOk(s, s.threads[u]);
    assert InFirst(s.threads[t].pc) && InFirst(s.threads[u].pc) ==> t == u;
  }

  lemma ReaderStepInv(s: State, t: nat, r: ReaderStep)
    requires Inv(s) && Enabled(s, Reader(t, r))
    ensures Inv(Apply(s, Reader(t, r)))
  {
    var s' := Apply(s, Reader(t, r));
    StepCount(s, Reader(t, r));
    assert ThreadOk(s, s.threads[t]);
    ReaderStepHeader(s, t, r);
    forall u | 0 <= u < |s'.threads|
      ensures ThreadOk(s', s'.threads[u])
    {
      assert ThreadOk(s, s.threads[u]);
      ReaderLocks(s, t, r, u);
      ReaderPcs(s, t, r, u);
    }
  }

  lemma StoreByteFacts(s: State, w: WriterStep)
    requires Shape(s) && PagesOk(s) && WriterEnabled(s, w) && w.StoreByte?
    ensures var s' := WriterAfter(s, w);
      && s'.h == s.h && s'.writer == s.writer == Ready && s'.versionOf == s.versionOf && s'.default == s.default
      && s'.pages == s.pages[s.h.xcp := Put(s.pages[s.h.xcp], w.off, w.val)]
      && Working(s'.default, s'.trace) == s'.pages[s.h.xcp] &&
        Versions(s'.default, s'.trace) == Versions(s.default, s.trace)
  {
    TraceStep(s.default, s.trace, Store(w.off, w.val));
  }

  lemma StoreBytePages(s: State, w: WriterStep)
    requires Shape(s) && RolesOk(s) && PagesOk(s) && VersionsOk(s) && WriterEnabled(s, w) && w.StoreByte?
    ensures var s' := WriterAfter(s, w); Shape(s') && PagesOk(s') && VersionsOk(s') && EcuVersion(s') == EcuVersion(s)
  {
    StoreByteFacts(s, w);
  }

  lemma CopyBytePages(s: State, w: WriterStep)
    requires Shape(s) && RolesOk(s) && PagesOk(s) && VersionsOk(s) && WriterEnabled(s, w) && w.CopyByte?
    ensures var s' := WriterAfter(s, w); Shape(s') && PagesOk(s') && VersionsOk(s') && EcuVersion(s') == EcuVersion(s)
  {
    var s' := WriterAfter(s, w);
    var target, k := s.writer.target, s.writer.k;
    assert s'.pages[target][..k + 1] == s.pages[target][..k] + [s.pages[s.h.xcp][k]];
    assert s.pages[s.h.xcp][..k + 1] == s.pages[s.h.xcp][..k] + [s.pages[s.h.xcp][k]];
  }

  lemma SwapPagePages(s: State, w: WriterStep)
    requires Shape(s) && RolesOk(s) && PagesOk(s) && VersionsOk(s) && WriterEnabled(s, w) && w.SwapPage?
    ensures var s' := WriterAfter(s, w); Shape(s') && PagesOk(s') && VersionsOk(s') && EcuVersion(s') == EcuVersion(s)
  {
    assert s.pages[s.writer.target][..|s.default|] == s.pages[s.writer.target];
    assert s.pages[s.h.xcp][..|s.default|] == s.pages[s.h.xcp];
  }

  lemma AnnounceNextPages(s: State, w: WriterStep)
    requires Shape(s) && RolesOk(s) && PagesOk(s) && VersionsOk(s) && WriterEnabled(s, w) && w.AnnounceNext?
    ensures var s' := WriterAfter(s, w); Shape(s') && PagesOk(s') && VersionsOk(s') && EcuVersion(s') == EcuVersion(s)
  {
    var s', vs := WriterAfter(s, w), Versions(s.default, s.trace);
    AnnounceFacts(s, w);
    assert Versions(s'.default, s'.trace) == vs + [s.pages[s.writer.prev]];
    assert s'.versionOf[s'.h.next] == |vs|;
    assert s'.versionOf[s.h.ecu] == s.versionOf[s.h.ecu] < |vs|;
  }

  lemma AnnounceFacts(s: State, w: WriterStep)
    requires Shape(s) && RolesOk(s) && PagesOk(s) && WriterEnabled(s, w) && w.AnnounceNext?
    ensures var s' := WriterAfter(s, w);
      && s'.pages == s.pages && s'.h.ecu == s.h.ecu && s'.h.next == s.writer.prev && s.writer.prev != s.h.ecu &&
        s.writer.prev < 3
      && Versions(s'.default, s'.trace) == Versions(s.default, s.trace) + [s.pages[s.writer.prev]]
      && Working(s'.default, s'.trace) == s.pages[s.h.xcp] && s'.h.xcp == s.h.xcp
  {
    TraceStep(s.default, s.trace, Announce);
  }

  lemma WriterStepHeader(s: State, w: WriterStep)
    requires Inv(s) && WriterEnabled(s, w)
    ensures var s' := WriterAfter(s, w);
      Shape(s') && RolesOk(s') && PagesOk(s') && VersionsOk(s') && EcuVersion(s') == EcuVersion(s)
  {
    match w
    case StoreByte(_, _) => StoreBytePages(s, w);
    case CopyByte => CopyBytePages(s, w);
    case SwapPage => SwapPagePages(s, w);
    case AnnounceNext => AnnounceNextPages(s, w);
    case _ =>
  }

  lemma WriterVersions(s: State, w: WriterStep)
    requires WriterEnabled(s, w)
    ensures var s' := WriterAfter(s, w);
      s'.default == s.default && Versions(s.default, s.trace) <= Versions(s'.default, s'.trace)
  {
    if w.StoreByte? {
      TraceStep(s.default, s.trace, Store(w.off, w.val));
    } else if w.AnnounceNext? {
      TraceStep(s.default, s.trace, Announce);
    }
  }

  /** The writer never touches a page that readers may hold, and never makes one unsafe. */
  lemma WriterKeepsPage(s: State, w: WriterStep, p: nat)
    requires Shape(s) && RolesOk(s) && PagesOk(s) && WriterEnabled(s, w) && MayHold(s, p)
    ensures p < |s.pages| == |WriterAfter(s, w).pages| && WriterAfter(s, w).pages[p] == s.pages[p]
    ensures MayHold(WriterAfter(s, w), p)
  {
  }

  lemma WriterKeepsLock(s: State, w: WriterStep, t: nat, n: nat)
    requires Inv(s) && WriterEnabled(s, w)
    requires t < |s.threads| && n < |s.threads[t].locks|
    ensures LockOk(WriterAfter(s, w), s.threads[t].locks[n])
  {
    assert ThreadOk(s, s.threads[t]);
    var l := s.threads[t].locks[n];
    assert LockOk(s, l);
    WriterVersions(s, w);
    if l.loc.Rcu? {
      WriterKeepsPage(s, w, l.loc.idx);
    }
  }

  lemma WriterPcs(s: State, w: WriterStep, t: nat)
    requires Inv(s) && WriterEnabled(s, w) && t < |s.threads|
    ensures PcOk(WriterAfter(s, w), s.threads[t].pc)
  {
    assert ThreadOk(s, s.threads[t]);
  }

  lemma WriterFrame(s: State, w: WriterStep)
    requires WriterEnabled(s, w)
    ensures WriterAfter(s, w).threads == s.threads && WriterAfter(s, w).h.lockCount == s.h.lockCount
  {
  }

  lemma WriterThread(s: State, w: WriterStep, t: nat)
    requires Inv(s) && WriterEnabled(s, w) && t < |s.threads|
    ensures ThreadOk(WriterAfter(s, w), s.threads[t])
  {
    assert ThreadOk(s, s.threads[t]);
    WriterPcs(s, w, t);
    WriterStepHeader(s, w);
    forall n | 0 <= n < |s.threads[t].locks|
      ensures LockOk(WriterAfter(s, w), s.threads[t].locks[n])
    {
      WriterKeepsLock(s, w, t, n);
    }
  }

  lemma WriterStepInv(s: State, w: WriterStep)
    requires Inv(s) && WriterEnabled(s, w)
    ensures Inv(WriterAfter(s, w))
  {
    WriterStepHeader(s, w);
    WriterFrame(s, w);
    forall t | 0 <= t < |s.threads|
      ensures ThreadOk(WriterAfter(s, w), s.threads[t])
    {
      WriterThread(s, w, t);
    }
  }

  lemma StepInv(s: State, a: Action)
    requires Inv(s) && Enabled(s, a)
    ensures Inv(Apply(s, a))
  {
    match a
    case Reader(t, r) => ReaderStepInv(s, t, r);
    case Writer(w) => WriterStepInv(s, w);
  }

  lemma {:induction false} RunInv(s: State, acts: seq<Action>, s': State)
    requires Inv(s) && Steps(s, acts, s')
    ensures Inv(s')
    decreases |acts|
  {
    if acts != [] {
      StepInv(s, acts[0]);
      RunInv(Apply(s, acts[0]), acts[1..], s');
    }
  }

  // ---------------------------------------------------------------- refinement of the register

  function AbsLock(l: Lock): Hold {
    Hold(if l.loc.DefaultLoc? then Default else Version(l.version), l.buf)
  }

  function AbsThread(th: Thread): Client {
    Client(seq(|th.locks|, i requires 0 <= i < |th.locks| => AbsLock(th.locks[i])), th.seen)
  }

  /** What the algorithm means: the register it implements. */
  function Abs(s: State): Register {
    Register(s.default, s.trace, seq(|s.threads|, i requires 0 <= i < |s.threads| => AbsThread(s.threads[i])))
  }

  /** The register operation at whose place a step takes effect. */
  function ReaderOp(s: State, t: nat, th: Thread, r: ReaderStep): Op
    requires ReaderEnabled(s, th, r)
  {
    match r
    case ReadAccess => if s.working then Skip else Take(t, Default)
    case ReadPage => Take(t, Version(EcuVersion(s)))
    case ReadByte(n) => Read(t, n)
    case Unlock(n) => Drop(t, n)
    case _ => Skip
  }

  function OpOf(s: State, a: Action): Op
    requires Enabled(s, a)
  {
    match a
    case Reader(t, r) => ReaderOp(s, t, s.threads[t], r)
    case Writer(w) =>
      (match w
       case StoreByte(off, val) => Write(Store(off, val))
       case AnnounceNext => Write(Announce)
       case _ => Skip)
  }

  function Ops(s: State, acts: seq<Action>): (ops: seq<Op>)
    decreases |acts|
  {
    if acts == [] || !Enabled(s, acts[0]) then []
    else [OpOf(s, acts[0])] + Ops(Apply(s, acts[0]), acts[1..])
  }


  lemma ThreadRefines(s: State, t: nat, th: Thread, r: ReaderStep)
    requires Shape(s) && ThreadOk(s, th) && ReaderEnabled(s, th, r) && EcuVersion(s) <= Latest(s)
    ensures var op := ReaderOp(s, t, th, r);
      if op == Skip then AbsThread(ThreadAfter(s, th, r)) == AbsThread(th)
      else ClientEnabled(s.default, s.trace, AbsThread(th), op) &&
           ClientAfter(s.default, s.trace, AbsThread(th), op) == AbsThread(ThreadAfter(s, th, r))
  {
    var op := ReaderOp(s, t, th, r);
    if r.ReadByte? {
      assert LockOk(s, th.locks[r.n]);
    }
    if op != Skip {
      assert AbsThread(ThreadAfter(s, th, r)).holds == ClientAfter(s.default, s.trace, AbsThread(th), op).holds;
    }
  }

  lemma ReaderStepRefines(s: State, t: nat, r: ReaderStep)
    requires Inv(s) && Enabled(s, Reader(t, r))
    ensures VersionRegister.Enabled(Abs(s), OpOf(s, Reader(t, r)))
    ensures Abs(Apply(s, Reader(t, r))) == VersionRegister.Apply(Abs(s), OpOf(s, Reader(t, r)))
  {
    assert ThreadOk(s, s.threads[t]);
    ThreadRefines(s, t, s.threads[t], r);
    var op := OpOf(s, Reader(t, r));
    assert Abs(Apply(s, Reader(t, r))).clients == VersionRegister.Apply(Abs(s), op).clients;
  }

  lemma StepRefines(s: State, a: Action)
    requires Inv(s) && Enabled(s, a)
    ensures VersionRegister.Enabled(Abs(s), OpOf(s, a))
    ensures Abs(Apply(s, a)) == VersionRegister.Apply(Abs(s), OpOf(s, a))
  {
    match a
    case Reader(t, r) => ReaderStepRefines(s, t, r);
    case Writer(_) =>
  }

  /** Every run of the algorithm is a run of the abstract register. */
  lemma {:induction false} RunRefines(s: State, acts: seq<Action>, s': State)
    requires Inv(s) && Steps(s, acts, s')
    ensures Runs(Abs(s), Ops(s, acts), Abs(s'))
    decreases |acts|
  {
    if acts != [] {
      StepRefines(s, acts[0]);
      StepInv(s, acts[0]);
      RunRefines(Apply(s, acts[0]), acts[1..], s');
    }
  }

  // ---------------------------------------------------------------- main results

  /**
    Safety over whole runs, for one writer and any number of readers: the pages under a lock are
    complete versions, what a reader copied is a prefix of exactly one of them, and the versions
    a thread obtained never go back.
   */
  lemma ReadersSeeCompleteVersions(default: Page, spare: Page, threadCount: nat, acts: seq<Action>, s: State, t: nat)
    requires |spare| == |default| && Steps(Init(default, spare, threadCount), acts, s) && t < |s.threads|
    ensures Runs(VersionRegister.Init(default, threadCount), Ops(Init(default, spare, threadCount), acts), Abs(s))
    ensures Consistent(Abs(s))
    ensures forall n :: 0 <= n < |s.threads[t].locks| ==> LockOk(s, s.threads[t].locks[n])
    ensures forall i, j :: 0 <= i < j < |s.threads[t].seen| ==> s.threads[t].seen[i] <= s.threads[t].seen[j]
  {
    var s0 := Init(default, spare, threadCount);
    InitInv(default, spare, threadCount);
    RunInv(s0, acts, s);
    assert ThreadOk(s, s.threads[t]);
    RunRefines(s0, acts, s);
    assert forall i :: 0 <= i < threadCount ==> Abs(s0).clients[i].holds == [];
    assert Abs(s0) == VersionRegister.Init(default, threadCount);
    RunConsistent(Abs(s0), Ops(s0, acts), Abs(s));
    assert ClientConsistent(Abs(s), Abs(s).clients[t]);
  }

  /**
    Pages that a reader holds or can still get: ECU page, published page, page being handed back,
    unconfirmed free page.
   */
  ghost predicate ReaderPage(s: State, p: nat) {
    || p == s.h.ecu
    || p == s.h.next
    || (exists t :: 0 <= t < |s.threads| && s.threads[t].pc == StoreFree(p))
    || (s.h.free == Some(p) && s.h.hazard)
  }

  /** Pages that the writer writes or has claimed. */
  ghost predicate WriterPage(s: State, p: nat) {
    || p == s.h.xcp
    || s.writer == TakeFree(p)
    || (s.writer.Copy? && s.writer.target == p)
    || s.writer == StoreNext(p)
  }

  /**
    Ownership in every reachable state: each page is the readers', the writer's, or the confirmed
    free page, never both readers' and writer's; every held page is a reader page, and a step of
    any thread writes writer pages only.
   */
  lemma PagesPartitioned(s: State, p: nat)
    requires Inv(s) && p < 3
    ensures !(ReaderPage(s, p) && WriterPage(s, p))
    ensures ReaderPage(s, p) || WriterPage(s, p) || (s.h.free == Some(p) && !s.h.hazard)
    ensures forall t, n ::
      0 <= t < |s.threads| && 0 <= n < |s.threads[t].locks| && s.threads[t].locks[n].loc == Rcu(p) ==> ReaderPage(s, p)
    ensures forall a :: Enabled(s, a) && !WriterPage(s, p) ==>
      |Apply(s, a).pages| == 3 && Apply(s, a).pages[p] == s.pages[p]
  {
    assert forall t :: 0 <= t < |s.threads| ==> ThreadOk(s, s.threads[t]);
    assert p == s.h.xcp || p == s.h.ecu || p == Third(s.h);
    if s.role == IsInTransit {
      var t :| 0 <= t < |s.threads| && s.threads[t].pc.StoreFree?;
      assert ThreadOk(s, s.threads[t]);
    }
    forall t, n | 0 <= t < |s.threads| && 0 <= n < |s.threads[t].locks| && s.threads[t].locks[n].loc == Rcu(p)
      ensures ReaderPage(s, p)
    {
      assert LockOk(s, s.threads[t].locks[n]);
    }
    forall a | Enabled(s, a) && !WriterPage(s, p)
      ensures |Apply(s, a).pages| == 3 && Apply(s, a).pages[p] == s.pages[p]
    {
    }
  }
}
