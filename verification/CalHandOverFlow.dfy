/**
  A write on its way through the whole of one segment with the page hand-over: from the command of the client,
  through an attempt to publish, to the bytes that a reader copies.
 */
module CalHandOverFlow {
  import opened Bytes
  import opened CalServer
  import opened CalWriter
  import opened CalHandOverSystem
  import opened VersionRegister
  import A = HandOverAlone
  import C = CalClient
  import L = HandOverLock
  import M = HandOverRcu
  import O = CalObservation

  lemma {:induction false} MovesConcat(cfg: Config, i: nat, x: System, moves: seq<Move>, x1: System, more: seq<Move>,
                                       x': System)
    requires Moves(cfg, i, x, moves, x1) && Moves(cfg, i, x1, more, x')
    ensures Moves(cfg, i, x, moves + more, x')
    decreases |moves|
  {
    if moves == [] {
      assert moves + more == more;
    } else {
      assert (moves + more)[1..] == moves[1..] + more;
      MovesConcat(cfg, i, After(cfg, i, x, moves[0]), moves[1..], x1, more, x');
    }
  }

  lemma OneMove(cfg: Config, i: nat, x: System, v: Move)
    requires CanMove(x, v)
    ensures Moves(cfg, i, x, [v], After(cfg, i, x, v))
  {
    assert Moves(cfg, i, After(cfg, i, x, v), [v][1..], After(cfg, i, x, v));
  }

  // ---------------------------------------------------------------- the readers

  ghost predicate OnlyReaders(acts: seq<M.Action>) { forall j :: 0 <= j < |acts| ==> acts[j].Reader? }

  /** A run of the readers is a run of the system. */
  lemma {:induction false} ReaderMoves(cfg: Config, i: nat, x: System, acts: seq<M.Action>, m: M.State)
      returns (moves: seq<Move>)
    requires OnlyReaders(acts) && M.Steps(x.m, acts, m)
    ensures Moves(cfg, i, x, moves, x.(m := m))
    decreases |acts|
  {
    if acts == [] {
      moves := [];
    } else {
      var v := Move.Read(acts[0].t, acts[0].r);
      var rest := ReaderMoves(cfg, i, After(cfg, i, x, v), acts[1..], m);
      OneMove(cfg, i, x, v);
      MovesConcat(cfg, i, x, [v], After(cfg, i, x, v), rest, x.(m := m));
      moves := [v] + rest;
    }
  }

  // ---------------------------------------------------------------- the command at work

  /** The command at work may store its bytes and then make its attempts. */
  ghost predicate AtWork(x: System) {
    x.w.work.Some? && !x.w.work.value.published && x.w.work.value.failed < x.w.work.value.tries
  }

  /** What storing the bytes of the command leads to. */
  function Stored(x: System): System
    requires x.w.work.Some? && x.m.h.xcp < |x.m.pages|
  {
    var k, p := x.w.work.value, x.m.h.xcp;
    System(x.w.(work := Some(k.(todo := [])), trace := x.w.trace + k.todo),
           x.m.(pages := x.m.pages[p := Working(x.m.pages[p], k.todo)], trace := x.m.trace + k.todo))
  }

  lemma {:induction false} WorkingFirst(page: Page, todo: seq<WriterEvent>)
    requires todo != [] && todo[0].Store? && todo[0].off < |page|
    ensures Working(page, todo) == Working(page[todo[0].off := todo[0].val], todo[1..])
    decreases |todo|
  {
    var n := |todo| - 1;
    if n == 0 {
      assert todo[..0] == [] && todo[1..] == [];
    } else {
      assert todo[..n][1..] == todo[1..][..n - 1];
      WorkingFirst(page, todo[..n]);
    }
  }

  lemma {:induction false} StoreMoves(cfg: Config, i: nat, x: System) returns (moves: seq<Move>)
    requires AtWork(x) && x.m.writer.Ready? && x.m.h.xcp < |x.m.pages|
    requires forall j :: 0 <= j < |x.w.work.value.todo| ==>
      x.w.work.value.todo[j].Store? && x.w.work.value.todo[j].off < |x.m.pages[x.m.h.xcp]|
    ensures Moves(cfg, i, x, moves, Stored(x))
    decreases |x.w.work.value.todo|
  {
    var todo := x.w.work.value.todo;
    if todo == [] {
      moves := [];
      assert Stored(x) == x;
    } else {
      var v := Move.Write(M.StoreByte(todo[0].off, todo[0].val));
      var x1 := After(cfg, i, x, v);
      assert x1.w.work.value.todo == todo[1..];
      var rest := StoreMoves(cfg, i, x1);
      StoredStep(cfg, i, x, x1);
      OneMove(cfg, i, x, v);
      MovesConcat(cfg, i, x, [v], x1, rest, Stored(x));
      moves := [v] + rest;
    }
  }

  lemma StoredStep(cfg: Config, i: nat, x: System, x1: System)
    requires AtWork(x) && x.m.h.xcp < |x.m.pages| && x.w.work.value.todo != [] && x.w.work.value.todo[0].Store?
    requires var e := x.w.work.value.todo[0];
      && e.off < |x.m.pages[x.m.h.xcp]| && CanMove(x, Move.Write(M.StoreByte(e.off, e.val)))
      && x1 == After(cfg, i, x, Move.Write(M.StoreByte(e.off, e.val)))
    ensures Stored(x1) == Stored(x)
  {
    var todo := x.w.work.value.todo;
    WorkingFirst(x.m.pages[x.m.h.xcp], todo);
    assert (x.w.trace + [todo[0]]) + todo[1..] == x.w.trace + todo;
    assert (x.m.trace + [todo[0]]) + todo[1..] == x.m.trace + todo;
    assert Stored(x1).m.pages == Stored(x).m.pages;
  }

  // ---------------------------------------------------------------- an attempt that succeeds

  /** The rest of an attempt of the machine, up to its announcement, is what the command at work makes. */
  lemma {:induction false} AttemptMoves(cfg: Config, i: nat, x: System, acts: seq<M.Action>, m: M.State)
      returns (moves: seq<Move>)
    requires AtWork(x) && x.w.work.value.todo == []
    requires acts != [] && A.InAttempt(acts) && acts[|acts| - 1].w.AnnounceNext? && M.Steps(x.m, acts, m)
    ensures Moves(cfg, i, x, moves,
                  System(x.w.(work := Some(x.w.work.value.(published := true)), trace := x.w.trace + [Announce]), m))
    decreases |acts|
  {
    var v := Move.Write(acts[0].w);
    var x1 := After(cfg, i, x, v);
    OneMove(cfg, i, x, v);
    moves := [v];
    if |acts| > 1 {
      assert M.Enabled(x1.m, acts[1..][0]);
      var rest := AttemptMoves(cfg, i, x1, acts[1..], m);
      MovesConcat(cfg, i, x, [v], x1, rest, System(x.w.(work := Some(x.w.work.value.(published := true)),
        trace := x.w.trace + [Announce]), m));
      moves := moves + rest;
    }
  }

  /** A page is free, and no reader may still be about to use it. */
  predicate HasFreePage(m: M.State) { m.h.free.Some? && !m.h.hazard }

  /** The next attempt of the command succeeds if there is such a page. */
  lemma PublishMoves(cfg: Config, i: nat, x: System) returns (moves: seq<Move>, x': System)
    requires AtWork(x) && x.w.work.value.todo == [] && M.Inv(x.m) && x.m.writer.Ready? && HasFreePage(x.m)
    ensures Moves(cfg, i, x, moves, x')
    ensures x'.w == x.w.(work := Some(x.w.work.value.(published := true)), trace := x.w.trace + [Announce])
    ensures x'.m == x.m.(pages := x'.m.pages, h := x'.m.h, trace := x.m.trace + [Announce],
                         versionOf := x'.m.versionOf, role := x'.m.role)
    ensures x'.m.h.next < |x'.m.pages| && x'.m.h.xcp < |x'.m.pages| && x'.m.h.lockCount == x.m.h.lockCount
    ensures x'.m.pages[x'.m.h.next] == x'.m.pages[x'.m.h.xcp]
  {
    var acts := A.PublishAlone(x.m);
    var m := A.PublishResult(x.m);
    var v := Move.Write(M.PublishStart);
    var x1 := After(cfg, i, x, v);
    OneMove(cfg, i, x, v);
    LastIsAnnouncement(x1.m, acts[1..], m);
    var rest := AttemptMoves(cfg, i, x1, acts[1..], m);
    x' := System(x.w.(work := Some(x.w.work.value.(published := true)), trace := x.w.trace + [Announce]), m);
    MovesConcat(cfg, i, x, [v], x1, rest, x');
    moves := [v] + rest;
  }

  lemma {:induction false} LastIsAnnouncement(m: M.State, acts: seq<M.Action>, m': M.State)
    requires A.InAttempt(acts) && M.Steps(m, acts, m') && m'.trace != m.trace
    ensures acts != [] && acts[|acts| - 1].w.AnnounceNext?
    decreases |acts|
  {
    if acts[|acts| - 1].w.AnnounceNext? {
    } else {
      assert M.Apply(m, acts[0]).trace == m.trace;
      LastIsAnnouncement(M.Apply(m, acts[0]), acts[1..], m');
    }
  }

  // ---------------------------------------------------------------- an attempt that fails

  lemma {:induction false} AnnouncementShows(m: M.State, acts: seq<M.Action>, m': M.State)
    requires acts != [] && A.InAttempt(acts) && M.Steps(m, acts, m') && acts[|acts| - 1].w.AnnounceNext?
    ensures |m'.trace| == |m.trace| + 1
    decreases |acts|
  {
    if |acts| > 1 {
      assert M.Apply(m, acts[0]).trace == m.trace;
      AnnouncementShows(M.Apply(m, acts[0]), acts[1..], m');
    }
  }

  /** An attempt of the machine that ends without an announcement is a failed attempt of the command. */
  lemma {:induction false} FailureMoves(cfg: Config, i: nat, x: System, acts: seq<M.Action>, m: M.State)
      returns (moves: seq<Move>)
    requires AtWork(x) && x.w.work.value.todo == [] && !x.m.writer.Ready? && m.writer.Ready?
    requires acts != [] && A.InAttempt(acts) && !acts[|acts| - 1].w.AnnounceNext? && M.Steps(x.m, acts, m)
    ensures Moves(cfg, i, x, moves,
                  System(x.w.(work := Some(x.w.work.value.(failed := x.w.work.value.failed + 1))), m))
    decreases |acts|
  {
    var v := Move.Write(acts[0].w);
    var x1 := After(cfg, i, x, v);
    OneMove(cfg, i, x, v);
    moves := [v];
    if |acts| > 1 {
      assert M.Enabled(x1.m, acts[1..][0]);
      var rest := FailureMoves(cfg, i, x1, acts[1..], m);
      MovesConcat(cfg, i, x, [v], x1, rest,
                  System(x.w.(work := Some(x.w.work.value.(failed := x.w.work.value.failed + 1))), m));
      moves := moves + rest;
    }
  }

  /** With no page to take, an attempt fails, and leaves everything as it was. */
  lemma FailMoves(cfg: Config, i: nat, x: System) returns (moves: seq<Move>)
    requires AtWork(x) && x.w.work.value.todo == [] && M.Inv(x.m) && x.m.writer.Ready? && !HasFreePage(x.m)
    ensures Moves(cfg, i, x, moves,
                  x.(w := x.w.(work := Some(x.w.work.value.(failed := x.w.work.value.failed + 1)))))
  {
    var acts := A.PublishAlone(x.m);
    var v := Move.Write(M.PublishStart);
    var x1 := After(cfg, i, x, v);
    OneMove(cfg, i, x, v);
    moves := [v];
    if acts[1..] != [] {
      if acts[1..][|acts[1..]| - 1].w.AnnounceNext? {
        AnnouncementShows(x1.m, acts[1..], x.m);
      }
      assert M.Enabled(x1.m, acts[1..][0]);
      var rest := FailureMoves(cfg, i, x1, acts[1..], x.m);
      MovesConcat(cfg, i, x, [v], x1, rest,
                  x.(w := x.w.(work := Some(x.w.work.value.(failed := x.w.work.value.failed + 1)))));
      moves := moves + rest;
    }
  }

  /** A command whose attempts all fail ends as well, after the last of them, and adds no version. */
  lemma {:induction false} GiveUpAlone(cfg: Config, i: nat, x: System) returns (moves: seq<Move>, x': System)
    requires x.w.work.Some? && !x.w.work.value.published && x.w.work.value.failed <= x.w.work.value.tries
    requires x.w.work.value.todo == [] && M.Inv(x.m) && x.m.writer.Ready? && !HasFreePage(x.m)
    ensures Moves(cfg, i, x, moves, x') && x'.w.work.None? && x'.w.cmds == x.w.cmds + [x.w.work.value.cmd]
    ensures x'.w.trace == x.w.trace && x'.m == x.m.(working := x'.m.working)
    decreases x.w.work.value.tries - x.w.work.value.failed
  {
    if x.w.work.value.failed == x.w.work.value.tries {
      moves, x' := [Move.End], After(cfg, i, x, Move.End);
      OneMove(cfg, i, x, Move.End);
    } else {
      var fail := FailMoves(cfg, i, x);
      var x1 := x.(w := x.w.(work := Some(x.w.work.value.(failed := x.w.work.value.failed + 1))));
      moves, x' := GiveUpAlone(cfg, i, x1);
      MovesConcat(cfg, i, x, fail, x1, moves, x');
      moves := fail + moves;
    }
  }

  // ---------------------------------------------------------------- a whole command

  /** The command can go through: it is accepted, no transaction is open, and a page is free. */
  ghost predicate CanWrite(x: System, i: nat, addr: nat, data: seq<Byte>) {
    && x.w.work.None? && x.m.writer.Ready? && HasFreePage(x.m)
    && SegNumber(addr) == i < |x.w.server.segs| && Accepts(x.w.server, addr, data) && !x.w.server.writeDelayed
    && |x.w.server.segs[i].page| == |x.m.default|
  }

  lemma StillInv(cfg: Config, s0: Server, i: nat, x: System, moves: seq<Move>, x': System)
    requires Agree(cfg, s0, i, x) && M.Inv(x.m) && Moves(cfg, i, x, moves, x')
    ensures Agree(cfg, s0, i, x') && M.Inv(x'.m)
  {
    var acts := SystemRun(cfg, s0, i, x, moves, x');
    M.RunInv(x.m, acts, x'.m);
  }

  /** Issued and stored. */
  lemma StartAndStore(cfg: Config, s0: Server, i: nat, x: System, addr: nat, data: seq<Byte>)
      returns (moves: seq<Move>, x': System)
    requires Agree(cfg, s0, i, x) && M.Inv(x.m) && CanWrite(x, i, addr, data)
    ensures Moves(cfg, i, x, moves, x') && AtWork(x') && x'.w.work.value.todo == []
    ensures x'.w.work.value.cmd == WriteMemory(addr, data) && x'.w.cmds == x.w.cmds && x'.m.writer.Ready?
    ensures x'.m.threads == x.m.threads && x'.m.h == x.m.h
  {
    var others: Avail := (j, k) => false;
    var start := Move.Start(WriteMemory(addr, data), others);
    var x1 := After(cfg, i, x, start);
    OneMove(cfg, i, x, start);
    var stores := StoreMoves(cfg, i, x1);
    x' := Stored(x1);
    MovesConcat(cfg, i, x, [start], x1, stores, x');
    moves := [start] + stores;
  }

  /** Issued, stored, published and finished, with no reader moving. */
  lemma WriteAlone(cfg: Config, s0: Server, i: nat, x: System, addr: nat, data: seq<Byte>)
      returns (moves: seq<Move>, x': System)
    requires Agree(cfg, s0, i, x) && M.Inv(x.m) && CanWrite(x, i, addr, data)
    ensures Moves(cfg, i, x, moves, x') && x'.w.work.None? && x'.w.cmds == x.w.cmds + [WriteMemory(addr, data)]
    ensures x'.m.threads == x.m.threads && x'.m.h.lockCount == x.m.h.lockCount && x'.m.writer.Ready?
    ensures x'.m.h.next < |x'.m.pages| && x'.m.h.xcp < |x'.m.pages|
    ensures x'.m.pages[x'.m.h.next] == x'.m.pages[x'.m.h.xcp]
  {
    var x2;
    moves, x2 := StartAndStore(cfg, s0, i, x, addr, data);
    StillInv(cfg, s0, i, x, moves, x2);
    var publish, x3 := PublishMoves(cfg, i, x2);
    OneMove(cfg, i, x3, Move.End);
    x' := After(cfg, i, x3, Move.End);
    MovesConcat(cfg, i, x, moves, x2, publish, x3);
    MovesConcat(cfg, i, x, moves + publish, x3, [Move.End], x');
    moves := moves + publish + [Move.End];
  }

  /** The first reader locks and copies the whole page, with the writer at rest. */
  lemma ReadAlone(cfg: Config, i: nat, x: System, t: nat) returns (moves: seq<Move>, x': System)
    requires M.Inv(x.m) && t < |x.m.threads| && x.m.h.lockCount == 0 && x.m.working
    ensures Moves(cfg, i, x, moves, x') && x'.w == x.w && t < |x'.m.threads|
    ensures |x'.m.threads[t].locks| == |x.m.threads[t].locks| + 1 && x.m.h.next < |x.m.pages|
    ensures x'.m.threads[t].locks[|x.m.threads[t].locks|].buf == x.m.pages[x.m.h.next]
  {
    var acts, m := L.LockAndCopy(x.m, t);
    moves := ReaderMoves(cfg, i, x, acts, m);
    x' := x.(m := m);
  }

  /** The writer page at rest is the client's page after the finished commands. */
  lemma PageOfClient(cfg: Config, s0: Server, i: nat, x: System)
    requires Fresh(s0) && i < |s0.segs| && Agree(cfg, s0, i, x) && M.Inv(x.m) && x.w.work.None?
    requires x.m.default == s0.segs[i].default
    ensures i < |PlainRun(View(s0), x.w.cmds).pages| && x.m.h.xcp < |x.m.pages|
    ensures x.m.pages[x.m.h.xcp] == PlainRun(View(s0), x.w.cmds).pages[i]
    ensures x.w.server.writeDelayed == InTransaction(x.w.cmds) && |x.w.server.segs[i].page| == |x.m.default|
  {
    RunsOk(cfg, s0, x.w.cmds, x.w.avails);
    DefaultsKept(cfg, s0, x.w.cmds, x.w.avails, i);
    SegAgrees(x.w.server, View(s0), x.w.cmds, i);
    assert SegOk(x.w.server.segs[i], View(s0), x.w.cmds, i);
  }

  /** A run of the system from its initial state. */
  ghost predicate Reached(cfg: Config, s0: Server, i: nat, spare: Page, threadCount: nat, moves: seq<Move>, x: System) {
    && Fresh(s0) && i < |s0.segs| && |spare| == |s0.segs[i].default|
    && Moves(cfg, i, Initial(s0, i, spare, threadCount), moves, x)
  }

  lemma ReachedAgrees(cfg: Config, s0: Server, i: nat, spare: Page, threadCount: nat, moves: seq<Move>, x: System)
    requires Reached(cfg, s0, i, spare, threadCount, moves, x)
    ensures Agree(cfg, s0, i, x) && M.Inv(x.m) && x.m.default == s0.segs[i].default
  {
    InitialAgrees(cfg, s0, i, spare, threadCount);
    M.InitInv(s0.segs[i].default, spare, threadCount);
    StillInv(cfg, s0, i, Initial(s0, i, spare, threadCount), moves, x);
    var acts := SystemRun(cfg, s0, i, Initial(s0, i, spare, threadCount), moves, x);
    O.HandOverDefaultKept(M.Init(s0.segs[i].default, spare, threadCount), acts, x.m);
  }

  /**
    What the client writes is what the readers get. From every reachable state of the system with no
    command at work: a write that is accepted outside a transaction goes through if a page is free and
    the hazard flag is not set, and the first lock on the working page gives exactly the client's page.
   */
  lemma WriteReachesReader(cfg: Config, s0: Server, i: nat, spare: Page, threadCount: nat, moves: seq<Move>,
                           x: System, addr: nat, data: seq<Byte>, t: nat) returns (more: seq<Move>, x': System)
    requires Reached(cfg, s0, i, spare, threadCount, moves, x) && x.w.work.None?
    requires Accepts(x.w.server, addr, data) && SegNumber(addr) == i && !InTransaction(x.w.cmds)
    requires C.SelectedPage(s0, x.w.cmds, i) == 0 && HasFreePage(x.m)
    requires t < |x.m.threads| && x.m.h.lockCount == 0
    ensures Moves(cfg, i, x, more, x') && x'.w.cmds == x.w.cmds + [WriteMemory(addr, data)] && x'.w.work.None?
    ensures t < |x'.m.threads| && |x'.m.threads[t].locks| == |x.m.threads[t].locks| + 1
    ensures i < |PlainRun(View(s0), x'.w.cmds).pages|
    ensures x'.m.threads[t].locks[|x.m.threads[t].locks|].buf == PlainRun(View(s0), x'.w.cmds).pages[i]
  {
    ReachedAgrees(cfg, s0, i, spare, threadCount, moves, x);
    PageOfClient(cfg, s0, i, x);
    var x1;
    more, x1 := WriteAlone(cfg, s0, i, x, addr, data);
    MovesConcat(cfg, i, Initial(s0, i, spare, threadCount), moves, x, more, x1);
    ReachedAgrees(cfg, s0, i, spare, threadCount, moves + more, x1);
    PageOfClient(cfg, s0, i, x1);
    SelectionKept(cfg, s0, i, x, x1, addr, data);
    var read;
    read, x' := ReadAlone(cfg, i, x1, t);
    MovesConcat(cfg, i, x, more, x1, read, x');
    more := more + read;
  }

  lemma SelectionKept(cfg: Config, s0: Server, i: nat, x: System, x1: System, addr: nat, data: seq<Byte>)
    requires Fresh(s0) && i < |s0.segs| && Agree(cfg, s0, i, x1) && C.SelectedPage(s0, x.w.cmds, i) == 0
    requires x1.w.cmds == x.w.cmds + [WriteMemory(addr, data)]
    ensures x1.m.working
  {
    assert x1.w.cmds[..|x.w.cmds|] == x.w.cmds;
    C.AccessFollowsCommands(cfg, s0, x1.w.cmds, x1.w.avails, i);
  }
}
