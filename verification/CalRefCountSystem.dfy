/**
  The whole of one segment with reference counting: the server thread runs a client's commands on the machine
  of the algorithm, byte by byte and attempt by attempt, while any number of readers lock, copy and
  unlock. Whether an attempt to publish succeeds is what the machine makes of it.
 */
module CalRefCountSystem {
  import C = CalClient
  import opened CalServer
  import opened CalWriter
  import M = RefCountRcu
  import O = CalObservation
  import opened VersionRegister
  import L = RefCountAlone

  datatype System = System(w: Writer, m: M.State)

  datatype Move =
    | Read(t: nat, r: M.ReaderStep)
    | Start(cmd: Command, others: Avail)
    | Write(step: M.WriterStep)
    | End

  function Initial(s0: Server, i: nat, spare: seq<Page>, threadCount: nat): System
    requires i < |s0.segs|
  {
    System(Writer(s0, None, [], [], []), M.Init(s0.segs[i].default, spare, threadCount))
  }

  /** The step of the machine is the one that the command at work is due to make. */
  predicate IsDue(work: Work, step: M.WriterStep) {
    match step
    case StoreByte(off, val) => work.todo != [] && work.todo[0] == Store(off, val)
    case SetEcuAccess(_) => false
    case _ => Trying(work)
  }

  predicate CanMove(x: System, v: Move) {
    match v
    case Read(t, r) => M.Enabled(x.m, M.Reader(t, r))
    case Start(_, _) => x.m.writer.Ready? && x.w.work.None?
    case Write(step) => M.WriterEnabled(x.m, step) && x.w.work.Some? && IsDue(x.w.work.value, step)
    case End => M.WriterEnabled(x.m, M.SetEcuAccess(true)) && CanDo(x.w, Finish)
  }

  /**
    What a step of the machine means for the command: a byte stored, an attempt that succeeded or
    failed, or nothing yet.
   */
  function Report(cfg: Config, i: nat, w: Writer, step: M.WriterStep, m: M.State): Writer
    requires w.work.Some? && IsDue(w.work.value, step)
  {
    if step.StoreByte? then Do(cfg, i, w, StoreOne)
    else if step.AnnouncePage? then Do(cfg, i, w, Succeed)
    else if m.writer.Ready? then Do(cfg, i, w, Fail)
    else w
  }

  predicate OnWorkingPage(s: Server, i: nat) { i < |s.segs| && s.segs[i].ecuAccess == WORKING_PAGE }

  /** When a command ends, the access flag of the readers is what the server has selected. */
  function After(cfg: Config, i: nat, x: System, v: Move): System
    requires CanMove(x, v)
  {
    match v
    case Read(t, r) => x.(m := M.Apply(x.m, M.Reader(t, r)))
    case Start(cmd, others) => x.(w := Do(cfg, i, x.w, Issue(cmd, others)))
    case Write(step) =>
      var m := M.WriterAfter(x.m, step);
      System(Report(cfg, i, x.w, step, m), m)
    case End =>
      var w := Do(cfg, i, x.w, Finish);
      System(w, M.WriterAfter(x.m, M.SetEcuAccess(OnWorkingPage(w.server, i))))
  }

  ghost predicate Moves(cfg: Config, i: nat, x: System, moves: seq<Move>, x': System)
    decreases |moves|
  {
    if moves == [] then x' == x
    else CanMove(x, moves[0]) && Moves(cfg, i, After(cfg, i, x, moves[0]), moves[1..], x')
  }

  // ---------------------------------------------------------------- server and machine agree

  ghost predicate Agree(cfg: Config, s0: Server, i: nat, x: System) {
    && WriterOk(cfg, s0, i, x.w)
    && x.m.trace == x.w.trace
    && (x.m.working <==> OnWorkingPage(x.w.server, i))
    && (!x.m.writer.Ready? ==> x.w.work.Some? && Trying(x.w.work.value))
  }

  lemma ReadAgrees(cfg: Config, s0: Server, i: nat, x: System, v: Move)
    requires Agree(cfg, s0, i, x) && CanMove(x, v) && v.Read?
    ensures Agree(cfg, s0, i, After(cfg, i, x, v))
  {
  }

  lemma MoveAgrees(cfg: Config, s0: Server, i: nat, x: System, v: Move)
    requires Agree(cfg, s0, i, x) && CanMove(x, v)
    ensures Agree(cfg, s0, i, After(cfg, i, x, v))
  {
    match v
    case Read(_, _) => ReadAgrees(cfg, s0, i, x, v);
    case Start(cmd, others) => DoOk(cfg, s0, i, x.w, Issue(cmd, others));
    case Write(step) =>
      if step.StoreByte? {
        DoOk(cfg, s0, i, x.w, StoreOne);
      } else if step.AnnouncePage? {
        DoOk(cfg, s0, i, x.w, Succeed);
      } else if M.WriterAfter(x.m, step).writer.Ready? {
        DoOk(cfg, s0, i, x.w, Fail);
      }
    case End => DoOk(cfg, s0, i, x.w, Finish);
  }

  /** The machine makes a run of its own, of one step or none for each move. */
  lemma MoveProjects(cfg: Config, i: nat, x: System, v: Move) returns (acts: seq<M.Action>)
    requires CanMove(x, v)
    ensures M.Steps(x.m, acts, After(cfg, i, x, v).m)
  {
    acts := match v
      case Read(t, r) => [M.Reader(t, r)]
      case Start(_, _) => []
      case Write(step) => [M.Writer(step)]
      case End => [M.Writer(M.SetEcuAccess(OnWorkingPage(Do(cfg, i, x.w, Finish).server, i)))];
    if !v.Start? {
      assert M.Steps(After(cfg, i, x, v).m, acts[1..], After(cfg, i, x, v).m);
    }
  }

  lemma {:induction false} SystemRun(cfg: Config, s0: Server, i: nat, x: System, moves: seq<Move>, x': System)
      returns (acts: seq<M.Action>)
    requires Agree(cfg, s0, i, x) && Moves(cfg, i, x, moves, x')
    ensures Agree(cfg, s0, i, x') && M.Steps(x.m, acts, x'.m)
    decreases |moves|
  {
    if moves == [] {
      acts := [];
    } else {
      var next := After(cfg, i, x, moves[0]);
      MoveAgrees(cfg, s0, i, x, moves[0]);
      var first := MoveProjects(cfg, i, x, moves[0]);
      var rest := SystemRun(cfg, s0, i, next, moves[1..], x');
      M.StepsConcat(x.m, first, next.m, rest, x'.m);
      acts := first + rest;
    }
  }

  lemma InitialAgrees(cfg: Config, s0: Server, i: nat, spare: seq<Page>, threadCount: nat)
    requires Fresh(s0) && i < |s0.segs|
    ensures Agree(cfg, s0, i, Initial(s0, i, spare, threadCount))
  {
    assert s0.segs[i] == NewSeg(s0.segs[i].default, s0.segs[i].number);
  }

  /**
    Atomic calibration, of the system as a whole: whatever a reader has copied out of a page that it
    holds is the client's page after a number of commands that leaves no transaction open - for every
    interleaving, and whichever attempts to publish fail or are given up.
   */
  lemma ReadersSeeBoundaries(cfg: Config, s0: Server, i: nat, spare: seq<Page>, threadCount: nat,
                             moves: seq<Move>, x: System, t: nat, h: nat)
    requires Fresh(s0) && i < |s0.segs| && M.SparePages(s0.segs[i].default, spare)
    requires Moves(cfg, i, Initial(s0, i, spare, threadCount), moves, x)
    requires t < |x.m.threads| && h < |x.m.threads[t].locks|
    ensures x.m.threads[t].locks[h].loc.DefaultLoc? ==> x.m.threads[t].locks[h].buf <= s0.segs[i].default
    ensures x.m.threads[t].locks[h].loc.Rcu? ==>
              O.AtBoundary(x.m.threads[t].locks[h].buf, View(s0), Commands(x.w), i)
  {
    InitialAgrees(cfg, s0, i, spare, threadCount);
    var acts := SystemRun(cfg, s0, i, Initial(s0, i, spare, threadCount), moves, x);
    var avails := TraceBegins(cfg, s0, i, x.w);
    O.RefCountReadersSeeBoundaries(cfg, s0, Commands(x.w), avails, i, spare, threadCount, acts, x.m, t, h);
  }

  /**
    Page selection, of the system as a whole: when the lock starts, in any interleaving, it takes the default
    page exactly if the client's finished commands have last selected page 1 for the application.
   */
  lemma ReadersFollowPage(cfg: Config, s0: Server, i: nat, spare: seq<Page>, threadCount: nat,
                          moves: seq<Move>, x: System, t: nat)
    requires Fresh(s0) && i < |s0.segs| && M.SparePages(s0.segs[i].default, spare)
    requires Moves(cfg, i, Initial(s0, i, spare, threadCount), moves, x) && CanMove(x, Move.Read(t, M.LockStart))
    ensures t < |x.m.threads| && t < |After(cfg, i, x, Move.Read(t, M.LockStart)).m.threads|
    ensures var th, th' := x.m.threads[t], After(cfg, i, x, Move.Read(t, M.LockStart)).m.threads[t];
      if C.SelectedPage(s0, x.w.cmds, i) == 1 then
        th'.pc == M.Idle && |th'.locks| == |th.locks| + 1 && th'.locks[|th.locks|].loc == M.DefaultLoc
      else th'.pc != M.Idle && th'.locks == th.locks
  {
    InitialAgrees(cfg, s0, i, spare, threadCount);
    var acts := SystemRun(cfg, s0, i, Initial(s0, i, spare, threadCount), moves, x);
    C.AccessFollowsCommands(cfg, s0, x.w.cmds, x.w.avails, i);
    L.LockEndsWithPage(x.m, t, M.LockStart);
  }
}
