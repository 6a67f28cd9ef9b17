/**
  The server thread as the writer of one segment: which bytes a command stores, how often it tries
  to publish, and what it makes of the outcome of each attempt. The attempts on other segments come
  in from outside; those on this segment are decided while the command runs.
 */
module CalWriter {
  import opened Bytes
  import opened CalServer
  import opened VersionRegister

  datatype Option<T> = None | Some(value: T)

  /** A command at work: the bytes still to store, and the attempts made so far. */
  datatype Work = Work(cmd: Command, others: Avail, todo: seq<WriterEvent>, tries: nat, failed: nat, published: bool)

  /** `avails` are the outcomes of all attempts of the finished commands `cmds`. */
  datatype Writer = Writer(
    server: Server,
    work: Option<Work>,
    cmds: seq<Command>,
    avails: seq<Avail>,
    trace: seq<WriterEvent>)

  datatype Step =
    | Issue(cmd: Command, others: Avail)
    | StoreOne
    | Fail
    | Succeed
    | Finish

  function StoresOf(s: Server, cmd: Command, i: nat): seq<WriterEvent> {
    if cmd.WriteMemory? && Accepts(s, cmd.addr, cmd.data) && SegNumber(cmd.addr) == i then
      Stores(SegOffset(cmd.addr), cmd.data)
    else []
  }

  function TriesOf(cfg: Config, s: Server, cmd: Command, i: nat): nat {
    match cmd
    case WriteMemory(addr, data) =>
      if Accepts(s, addr, data) && SegNumber(addr) == i && !s.writeDelayed then Attempts(!cfg.lazy) else 0
    case End => if Due(cfg, s.(writeDelayed := false), i) then Attempts(true) else 0
    case PublishAll(wait) => if Due(cfg, s, i) then Attempts(wait) else 0
    case _ => 0
  }

  /** The outcomes of a command on segment `i`: it fails so often, and then succeeds or gives up. */
  function Outcome(work: Work, i: nat): Avail {
    (j: nat, k: nat) => if j == i then work.published && k == work.failed else work.others(j, k)
  }

  predicate Trying(work: Work) { work.todo == [] && !work.published && work.failed < work.tries }

  predicate CanDo(w: Writer, step: Step) {
    match step
    case Issue(_, _) => w.work.None?
    case StoreOne => w.work.Some? && w.work.value.todo != []
    case Fail => w.work.Some? && Trying(w.work.value)
    case Succeed => w.work.Some? && Trying(w.work.value)
    case Finish =>
      w.work.Some? && w.work.value.todo == [] && (w.work.value.published || w.work.value.failed == w.work.value.tries)
  }

  function Do(cfg: Config, i: nat, w: Writer, step: Step): Writer
    requires CanDo(w, step)
  {
    match step
    case Issue(cmd, others) =>
      w.(work := Some(Work(cmd, others, StoresOf(w.server, cmd, i), TriesOf(cfg, w.server, cmd, i), 0, false)))
    case StoreOne =>
      var k := w.work.value;
      w.(trace := w.trace + [k.todo[0]], work := Some(k.(todo := k.todo[1..])))
    case Fail => w.(work := Some(w.work.value.(failed := w.work.value.failed + 1)))
    case Succeed => w.(trace := w.trace + [Announce], work := Some(w.work.value.(published := true)))
    case Finish =>
      var avail := Outcome(w.work.value, i);
      Writer(Exec(cfg, w.server, w.work.value.cmd, avail, |w.cmds| + 1), None,
             w.cmds + [w.work.value.cmd], w.avails + [avail], w.trace)
  }

  /** All commands, the one at work included. */
  function Commands(w: Writer): seq<Command> {
    if w.work.None? then w.cmds else w.cmds + [w.work.value.cmd]
  }

  // ---------------------------------------------------------------- the trace of a command

  /** What a command adds to the trace of segment `i`: its stores, and an announcement if an attempt succeeds. */
  lemma ExecTrace(cfg: Config, s: Server, cmd: Command, avail: Avail, stamp: nat, i: nat)
    requires i < |s.segs|
    ensures var s' := Exec(cfg, s, cmd, avail, stamp);
      && |s'.segs| == |s.segs|
      && s'.segs[i].trace == s.segs[i].trace + StoresOf(s, cmd, i) +
           (if exists k: nat :: k < TriesOf(cfg, s, cmd, i) && avail(i, k) then [Announce] else [])
  {
    match cmd
    case WriteMemory(addr, data) => WriteTrace(cfg, s, addr, data, avail, stamp, i);
    case End => PublishAllTrace(cfg, s.(writeDelayed := false), true, avail, stamp, i);
    case PublishAll(wait) => PublishAllTrace(cfg, s, wait, avail, stamp, i);
    case _ =>
  }

  lemma WriteTrace(cfg: Config, s: Server, addr: nat, data: seq<Byte>, avail: Avail, stamp: nat, i: nat)
    requires i < |s.segs|
    ensures var s' := WriteResult(cfg, s, addr, data, avail, stamp); var cmd := WriteMemory(addr, data);
      && |s'.segs| == |s.segs|
      && s'.segs[i].trace == s.segs[i].trace + StoresOf(s, cmd, i) +
           (if exists k: nat :: k < TriesOf(cfg, s, cmd, i) && avail(i, k) then [Announce] else [])
  {
    if Accepts(s, addr, data) && SegNumber(addr) == i && !s.writeDelayed {
      assert TriesOf(cfg, s, WriteMemory(addr, data), i) == Attempts(!cfg.lazy);
    }
  }

  lemma PublishAllTrace(cfg: Config, s: Server, wait: bool, avail: Avail, stamp: nat, i: nat)
    requires i < |s.segs|
    ensures var s' := PublishAllResult(cfg, s, wait, avail, stamp);
      var tries := if Due(cfg, s, i) then Attempts(wait) else 0;
      && |s'.segs| == |s.segs|
      && s'.segs[i].trace == s.segs[i].trace +
           (if exists k: nat :: k < tries && avail(i, k) then [Announce] else [])
  {
    assert Due(cfg, s, i) ==> (Succeeds(i, wait, avail) <==> exists k: nat :: k < Attempts(wait) && avail(i, k));
  }

  // ---------------------------------------------------------------- the invariant

  /** What was stored and announced is what the finished commands and the one at work say. */
  ghost predicate WriterOk(cfg: Config, s0: Server, i: nat, w: Writer) {
    && |w.cmds| == |w.avails| && w.server == Run(cfg, s0, w.cmds, w.avails) && i < |w.server.segs|
    && (w.work.None? ==> w.trace == w.server.segs[i].trace)
    && (w.work.Some? ==> WorkOk(cfg, w.server, i, w.work.value, w.trace))
  }

  ghost predicate WorkOk(cfg: Config, s: Server, i: nat, k: Work, trace: seq<WriterEvent>)
    requires i < |s.segs|
  {
    && k.tries == TriesOf(cfg, s, k.cmd, i) && k.failed <= k.tries
    && (k.published ==> k.todo == [] && k.failed < k.tries)
    && trace + k.todo == s.segs[i].trace + StoresOf(s, k.cmd, i) + (if k.published then [Announce] else [])
  }

  lemma OutcomeTrace(cfg: Config, s: Server, i: nat, k: Work, trace: seq<WriterEvent>, stamp: nat)
    requires i < |s.segs| && WorkOk(cfg, s, i, k, trace)
    ensures var s' := Exec(cfg, s, k.cmd, Outcome(k, i), stamp);
      |s'.segs| == |s.segs| && s'.segs[i].trace == trace + k.todo
  {
    ExecTrace(cfg, s, k.cmd, Outcome(k, i), stamp, i);
    if k.published {
      assert k.failed < k.tries && Outcome(k, i)(i, k.failed);
    }
  }

  lemma RunStep(cfg: Config, s0: Server, cmds: seq<Command>, avails: seq<Avail>, cmd: Command, avail: Avail)
    requires |cmds| == |avails|
    ensures Run(cfg, s0, cmds + [cmd], avails + [avail]) ==
              Exec(cfg, Run(cfg, s0, cmds, avails), cmd, avail, |cmds| + 1)
  {
    assert (cmds + [cmd])[..|cmds|] == cmds && (avails + [avail])[..|avails|] == avails;
  }

  lemma DoOk(cfg: Config, s0: Server, i: nat, w: Writer, step: Step)
    requires WriterOk(cfg, s0, i, w) && CanDo(w, step)
    ensures WriterOk(cfg, s0, i, Do(cfg, i, w, step))
  {
    match step
    case StoreOne =>
      var k := w.work.value;
      assert (w.trace + [k.todo[0]]) + k.todo[1..] == w.trace + k.todo;
    case Succeed =>
      assert (w.trace + [Announce]) + [] == (w.trace + []) + [Announce];
    case Finish =>
      var k := w.work.value;
      OutcomeTrace(cfg, w.server, i, k, w.trace, |w.cmds| + 1);
      RunStep(cfg, s0, w.cmds, w.avails, k.cmd, Outcome(k, i));
      assert w.trace + [] == w.trace;
    case _ =>
  }

  /** At any moment the trace is the beginning of the trace of some run of all these commands. */
  lemma TraceBegins(cfg: Config, s0: Server, i: nat, w: Writer) returns (avails: seq<Avail>)
    requires WriterOk(cfg, s0, i, w)
    ensures |avails| == |Commands(w)| && i < |Run(cfg, s0, Commands(w), avails).segs|
    ensures w.trace <= Run(cfg, s0, Commands(w), avails).segs[i].trace
  {
    avails := w.avails;
    if w.work.Some? {
      var k := w.work.value;
      OutcomeTrace(cfg, w.server, i, k, w.trace, |w.cmds| + 1);
      RunStep(cfg, s0, w.cmds, w.avails, k.cmd, Outcome(k, i));
      avails := w.avails + [Outcome(k, i)];
    }
  }
}
