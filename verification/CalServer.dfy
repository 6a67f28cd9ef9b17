/**
  The writer side of calibration: memory writes, delayed publishing, begin/end transactions and
  page switching, as the XCP server thread runs them over all segments.

  Whether one attempt to publish succeeds depends on the readers and comes in as `avail`: segment
  index and number of the attempt within the command. Every statement holds for all outcomes.
 */
module CalServer {
  import opened Bytes
  import opened VersionRegister

  const CRC_CMD_OK := 0x00
  const CRC_CMD_PENDING := 0x01
  const CRC_ACCESS_DENIED := 0x24
  const PUBLISH_TIMEOUT := 500
  const WORKING_PAGE := 0

  /** `firstPublished` is 1 when segment 0 is the EPK segment, which PublishAll skips. */
  datatype Config = Config(firstPublished: nat, lazy: bool)

  /**
    `trace` and `stamps` are bookkeeping: what the writer did, and after how many commands each
    version was announced.
   */
  datatype Seg = Seg(
    default: Page,
    page: Page,
    pending: bool,
    xcpAccess: nat,
    ecuAccess: nat,
    number: nat,
    trace: seq<WriterEvent>,
    stamps: seq<nat>)

  datatype Server = Server(segs: seq<Seg>, writeDelayed: bool)

  type Avail = (nat, nat) -> bool

  datatype Command =
    | WriteMemory(addr: nat, data: seq<Byte>)
    | Begin
    | End
    | PublishAll(wait: bool)
    | SetCalPage(number: nat, page: nat, mode: nat)

  function SegNumber(addr: nat): nat { addr / 0x1_0000 % 0x8000 }
  function SegOffset(addr: nat): nat { addr % 0x1_0000 }

  predicate EcuMode(mode: nat) { mode % 2 == 1 }
  predicate XcpMode(mode: nat) { mode / 2 % 2 == 1 }
  predicate AllMode(mode: nat) { mode / 128 % 2 == 1 }

  function Stores(off: nat, data: seq<Byte>): seq<WriterEvent> {
    seq(|data|, k requires 0 <= k < |data| => Store(off + k, data[k]))
  }

  // ---------------------------------------------------------------- the commands

  /** Does one of the attempts that a publish makes succeed? */
  predicate Succeeds(i: nat, wait: bool, avail: Avail) {
    exists k: nat :: k < Attempts(wait) && avail(i, k)
  }

  function Attempts(wait: bool): nat { if wait then 1 + PUBLISH_TIMEOUT else 1 }

  function Published(seg: Seg, ok: bool, stamp: nat): Seg {
    if ok then seg.(pending := false, trace := seg.trace + [Announce], stamps := seg.stamps + [stamp])
    else seg.(pending := true)
  }

  function PublishCode(ok: bool, wait: bool): nat {
    if ok then CRC_CMD_OK else if wait then CRC_ACCESS_DENIED else CRC_CMD_PENDING
  }

  /** Would PublishAll try to publish segment `i`? */
  predicate Due(cfg: Config, s: Server, i: nat) {
    !s.writeDelayed && cfg.firstPublished <= i < |s.segs| && s.segs[i].pending
  }

  function PublishAllResult(cfg: Config, s: Server, wait: bool, avail: Avail, stamp: nat): Server {
    s.(segs := seq(|s.segs|, i requires 0 <= i < |s.segs| =>
      if Due(cfg, s, i) then Published(s.segs[i], Succeeds(i, wait, avail), stamp) else s.segs[i]))
  }

  function PublishAllCode(cfg: Config, s: Server, wait: bool, avail: Avail): nat {
    if exists i: nat :: i < |s.segs| && Due(cfg, s, i) && !Succeeds(i, wait, avail) then PublishCode(false, wait)
    else CRC_CMD_OK
  }

  /** The write reaches the writer page: segment and range exist, and the client has the working page selected. */
  predicate Accepts(s: Server, addr: nat, data: seq<Byte>) {
    && SegNumber(addr) < |s.segs|
    && SegOffset(addr) + |data| <= |s.segs[SegNumber(addr)].page|
    && s.segs[SegNumber(addr)].xcpAccess == WORKING_PAGE
  }

  function WriteResult(cfg: Config, s: Server, addr: nat, data: seq<Byte>, avail: Avail, stamp: nat): Server {
    if !Accepts(s, addr, data) then s
    else
      var i := SegNumber(addr);
      var seg := s.segs[i];
      var written := seg.(page := Splice(seg.page, SegOffset(addr), data),
        trace := seg.trace + Stores(SegOffset(addr), data));
      s.(segs := s.segs[i :=
        if s.writeDelayed then written.(pending := true)
        else Published(written, Succeeds(i, !cfg.lazy, avail), stamp)])
  }

  function WriteCode(cfg: Config, s: Server, addr: nat, data: seq<Byte>, avail: Avail): nat {
    if !Accepts(s, addr, data) then CRC_ACCESS_DENIED
    else if s.writeDelayed || cfg.lazy then CRC_CMD_OK
    else PublishCode(Succeeds(SegNumber(addr), true, avail), true)
  }

  /** The first segment with a number, or |segs|. */
  function IndexOf(numbers: seq<nat>, number: nat): (i: nat)
    ensures i <= |numbers|
  {
    if numbers == [] then 0
    else if numbers[0] == number then 0
    else 1 + IndexOf(numbers[1..], number)
  }

  function Numbers(s: Server): seq<nat> {
    seq(|s.segs|, i requires 0 <= i < |s.segs| => s.segs[i].number)
  }

  predicate SetCalPageOk(numbers: seq<nat>, number: nat, page: nat) {
    IndexOf(numbers, number) < |numbers| && page <= 1
  }

  predicate Selects(numbers: seq<nat>, number: nat, mode: nat, i: nat) {
    AllMode(mode) || i == IndexOf(numbers, number)
  }

  function SetCalPageResult(s: Server, number: nat, page: nat, mode: nat): Server {
    if !SetCalPageOk(Numbers(s), number, page) then s
    else s.(segs := seq(|s.segs|, i requires 0 <= i < |s.segs| =>
      var seg := s.segs[i];
      if !Selects(Numbers(s), number, mode, i) then seg
      else seg.(ecuAccess := if EcuMode(mode) then page else seg.ecuAccess,
                xcpAccess := if XcpMode(mode) then page else seg.xcpAccess)))
  }

  /** One command of the server. */
  function Exec(cfg: Config, s: Server, cmd: Command, avail: Avail, stamp: nat): Server {
    match cmd
    case WriteMemory(addr, data) => WriteResult(cfg, s, addr, data, avail, stamp)
    case Begin => s.(writeDelayed := true)
    case End => PublishAllResult(cfg, s.(writeDelayed := false), true, avail, stamp)
    case PublishAll(wait) => PublishAllResult(cfg, s, wait, avail, stamp)
    case SetCalPage(number, page, mode) => SetCalPageResult(s, number, page, mode)
  }

  function Run(cfg: Config, s: Server, cmds: seq<Command>, avails: seq<Avail>): Server
    requires |cmds| == |avails|
  {
    if cmds == [] then s
    else
      var n := |cmds| - 1;
      Exec(cfg, Run(cfg, s, cmds[..n], avails[..n]), cmds[n], avails[n], |cmds|)
  }

  // ---------------------------------------------------------------- what a client thinks it is talking to

  /** Plain byte arrays: no publishing, no pending state, no transactions. */
  datatype Plain = Plain(pages: seq<Page>, access: seq<nat>, numbers: seq<nat>)

  function PlainExec(p: Plain, cmd: Command): Plain
    requires |p.access| == |p.pages| == |p.numbers|
  {
    match cmd
    case WriteMemory(addr, data) =>
      var i := SegNumber(addr);
      if i < |p.pages| && SegOffset(addr) + |data| <= |p.pages[i]| && p.access[i] == WORKING_PAGE
      then p.(pages := p.pages[i := Splice(p.pages[i], SegOffset(addr), data)])
      else p
    case SetCalPage(number, page, mode) =>
      if SetCalPageOk(p.numbers, number, page) && XcpMode(mode)
      then p.(access := seq(|p.access|, i requires 0 <= i < |p.access| =>
        if Selects(p.numbers, number, mode, i) then page else p.access[i]))
      else p
    case _ => p
  }

  function PlainRun(p: Plain, cmds: seq<Command>): (r: Plain)
    requires |p.access| == |p.pages| == |p.numbers|
    ensures |r.access| == |r.pages| == |r.numbers| == |p.pages|
  {
    if cmds == [] then p else PlainExec(PlainRun(p, cmds[..|cmds| - 1]), cmds[|cmds| - 1])
  }

  function View(s: Server): Plain {
    Plain(seq(|s.segs|, i requires 0 <= i < |s.segs| => s.segs[i].page),
          seq(|s.segs|, i requires 0 <= i < |s.segs| => s.segs[i].xcpAccess), Numbers(s))
  }

  /** Is a begin/end transaction open after these commands? */
  predicate InTransaction(cmds: seq<Command>) {
    cmds != [] &&
    match cmds[|cmds| - 1]
    case Begin => true
    case End => false
    case _ => InTransaction(cmds[..|cmds| - 1])
  }

  // ---------------------------------------------------------------- the invariant of a segment

  function NewSeg(default: Page, number: nat): Seg {
    Seg(default, default, false, WORKING_PAGE, WORKING_PAGE, number, [], [0])
  }

  ghost predicate Fresh(s: Server) {
    !s.writeDelayed && forall i :: 0 <= i < |s.segs| ==> s.segs[i] == NewSeg(s.segs[i].default, s.segs[i].number)
  }

  /**
    The writer page is what the trace says, nothing is lost while nothing is pending, and every
    version is the client's page after a number of commands that leaves no transaction open.
   */
  ghost predicate SegOk(seg: Seg, p0: Plain, cmds: seq<Command>, i: nat)
    requires |p0.access| == |p0.pages| == |p0.numbers| && i < |p0.pages|
  {
    var vs := Versions(seg.default, seg.trace);
    && seg.page == Working(seg.default, seg.trace)
    && |vs| == |seg.stamps|
    && (!seg.pending ==> vs[|vs| - 1] == seg.page)
    && (forall v :: 0 <= v < |vs| ==> StampOk(vs[v], seg.stamps[v], p0, cmds, i))
    && (forall v, w :: 0 <= v < w < |vs| ==> seg.stamps[v] <= seg.stamps[w])
  }

  ghost predicate StampOk(version: Page, stamp: nat, p0: Plain, cmds: seq<Command>, i: nat)
    requires |p0.access| == |p0.pages| == |p0.numbers| && i < |p0.pages|
  {
    && stamp <= |cmds|
    && !InTransaction(cmds[..stamp])
    && version == PlainRun(p0, cmds[..stamp]).pages[i]
  }

  lemma SpliceStep(page: Page, off: nat, init: seq<Byte>, b: Byte)
    requires off + |init| < |page|
    ensures Splice(page, off, init + [b]) == Splice(page, off, init)[off + |init| := b]
  {
  }

  lemma LastStore(trace: seq<WriterEvent>, off: nat, data: seq<Byte>)
    requires data != []
    ensures var n := |data| - 1;
      trace + Stores(off, data) == (trace + Stores(off, data[..n])) + [Store(off + n, data[n])]
  {
  }

  lemma {:induction false} StoresWork(page: Page, trace: seq<WriterEvent>, off: nat, data: seq<Byte>)
    requires off + |data| <= |page|
    ensures Working(page, trace + Stores(off, data)) == Splice(Working(page, trace), off, data)
    ensures Versions(page, trace + Stores(off, data)) == Versions(page, trace)
    decreases |data|
  {
    if data == [] {
      assert trace + Stores(off, data) == trace;
      assert Splice(Working(page, trace), off, data) == Working(page, trace);
    } else {
      var n := |data| - 1;
      StoresWork(page, trace, off, data[..n]);
      LastStore(trace, off, data);
      TraceStep(page, trace + Stores(off, data[..n]), Store(off + n, data[n]));
      assert data == data[..n] + [data[n]];
      SpliceStep(Working(page, trace), off, data[..n], data[n]);
    }
  }

  lemma ExecPlain(cfg: Config, s: Server, cmd: Command, avail: Avail, stamp: nat)
    ensures View(Exec(cfg, s, cmd, avail, stamp)) == PlainExec(View(s), cmd)
  {
    var s' := Exec(cfg, s, cmd, avail, stamp);
    var p' := PlainExec(View(s), cmd);
    assert View(s').pages == p'.pages;
    assert View(s').access == p'.access;
    assert View(s').numbers == p'.numbers;
  }

  lemma PrefixStamps(seg: Seg, p0: Plain, cmds: seq<Command>, cmd: Command, i: nat)
    requires |p0.access| == |p0.pages| == |p0.numbers| && i < |p0.pages|
    requires SegOk(seg, p0, cmds, i)
    ensures SegOk(seg, p0, cmds + [cmd], i)
    ensures forall v :: 0 <= v < |seg.stamps| ==> seg.stamps[v] <= |cmds|
  {
    var vs := Versions(seg.default, seg.trace);
    forall v | 0 <= v < |vs|
      ensures StampOk(vs[v], seg.stamps[v], p0, cmds + [cmd], i)
    {
      assert StampOk(vs[v], seg.stamps[v], p0, cmds, i);
      assert (cmds + [cmd])[..seg.stamps[v]] == cmds[..seg.stamps[v]];
    }
  }

  /** A publish with no transaction open adds one more version at a command boundary. */
  lemma PublishedOk(seg: Seg, ok: bool, p0: Plain, cmds: seq<Command>, i: nat)
    requires |p0.access| == |p0.pages| == |p0.numbers| && i < |p0.pages|
    requires SegOk(seg.(pending := true), p0, cmds, i) && !InTransaction(cmds)
    requires seg.page == PlainRun(p0, cmds).pages[i]
    ensures SegOk(Published(seg, ok, |cmds|), p0, cmds, i)
  {
    if ok {
      var seg' := Published(seg, ok, |cmds|);
      assert seg'.trace[..|seg.trace|] == seg.trace;
      assert cmds[..|cmds|] == cmds;
      var vs, vs' := Versions(seg.default, seg.trace), Versions(seg'.default, seg'.trace);
      forall v | 0 <= v < |vs'|
        ensures StampOk(vs'[v], seg'.stamps[v], p0, cmds, i)
      {
        if v < |vs| {
          assert StampOk(vs[v], seg.stamps[v], p0, cmds, i);
        }
      }
      forall v | 0 <= v < |vs|
        ensures seg.stamps[v] <= |cmds|
      {
        assert StampOk(vs[v], seg.stamps[v], p0, cmds, i);
      }
    }
  }

  ghost predicate RunOk(s: Server, p0: Plain, cmds: seq<Command>)
    requires |p0.access| == |p0.pages| == |p0.numbers|
  {
    && |s.segs| == |p0.pages|
    && s.writeDelayed == InTransaction(cmds)
    && View(s) == PlainRun(p0, cmds)
    && forall i :: 0 <= i < |s.segs| ==> SegOk(s.segs[i], p0, cmds, i)
  }

  /** The segment after the memory write of a command, before any publish. */
  lemma WrittenOk(seg: Seg, off: nat, data: seq<Byte>, p0: Plain, cmds: seq<Command>, i: nat)
    requires |p0.access| == |p0.pages| == |p0.numbers| && i < |p0.pages|
    requires SegOk(seg, p0, cmds, i) && off + |data| <= |seg.page|
    ensures SegOk(seg.(page := Splice(seg.page, off, data), trace := seg.trace + Stores(off, data), pending := true),
      p0, cmds, i)
  {
    StoresWork(seg.default, seg.trace, off, data);
  }

  lemma WriteOk(cfg: Config, s: Server, addr: nat, data: seq<Byte>, avail: Avail, p0: Plain, cmds: seq<Command>, i: nat)
    requires |p0.access| == |p0.pages| == |p0.numbers| && RunOk(s, p0, cmds)
    requires Accepts(s, addr, data) && i == SegNumber(addr)
    ensures SegOk(WriteResult(cfg, s, addr, data, avail, |cmds| + 1).segs[i], p0, cmds + [WriteMemory(addr, data)], i)
  {
    var all := cmds + [WriteMemory(addr, data)];
    var seg, off := s.segs[i], SegOffset(addr);
    PrefixStamps(seg, p0, cmds, WriteMemory(addr, data), i);
    WrittenOk(seg, off, data, p0, all, i);
    var written := seg.(page := Splice(seg.page, off, data), trace := seg.trace + Stores(off, data));
    assert all[..|cmds|] == cmds;
    if s.writeDelayed {
      assert WriteResult(cfg, s, addr, data, avail, |cmds| + 1).segs[i] == written.(pending := true);
    } else {
      ExecPlain(cfg, s, WriteMemory(addr, data), avail, |all|);
      assert PlainRun(p0, all) == PlainExec(View(s), WriteMemory(addr, data));
      PublishedOk(written, Succeeds(i, !cfg.lazy, avail), p0, all, i);
    }
  }

  lemma PublishAllOk(cfg: Config, s: Server, wait: bool, avail: Avail, p0: Plain, cmds: seq<Command>)
    requires |p0.access| == |p0.pages| == |p0.numbers| && RunOk(s, p0, cmds)
    ensures RunOk(PublishAllResult(cfg, s, wait, avail, |cmds|), p0, cmds)
  {
    var s' := PublishAllResult(cfg, s, wait, avail, |cmds|);
    assert View(s').pages == View(s).pages && View(s').access == View(s).access && Numbers(s') == Numbers(s);
    forall i | 0 <= i < |s'.segs|
      ensures SegOk(s'.segs[i], p0, cmds, i)
    {
      assert SegOk(s.segs[i], p0, cmds, i);
      if Due(cfg, s, i) {
        assert View(s).pages[i] == s.segs[i].page;
        PublishedOk(s.segs[i], Succeeds(i, wait, avail), p0, cmds, i);
      }
    }
  }

  lemma ExecOk(cfg: Config, s: Server, cmd: Command, avail: Avail, p0: Plain, cmds: seq<Command>)
    requires |p0.access| == |p0.pages| == |p0.numbers| && RunOk(s, p0, cmds)
    ensures RunOk(Exec(cfg, s, cmd, avail, |cmds| + 1), p0, cmds + [cmd])
  {
    var all := cmds + [cmd];
    assert all[..|cmds|] == cmds;
    ExecPlain(cfg, s, cmd, avail, |all|);
    var s' := Exec(cfg, s, cmd, avail, |all|);
    forall i | 0 <= i < |s.segs|
      ensures SegOk(s.segs[i], p0, all, i)
    {
      PrefixStamps(s.segs[i], p0, cmds, cmd, i);
    }
    match cmd {
      case WriteMemory(addr, data) =>
        forall i | 0 <= i < |s'.segs|
          ensures SegOk(s'.segs[i], p0, all, i)
        {
          if Accepts(s, addr, data) && i == SegNumber(addr) {
            WriteOk(cfg, s, addr, data, avail, p0, cmds, i);
          }
        }
      case End =>
        var s1 := s.(writeDelayed := false);
        assert View(s1) == View(s);
        PublishAllOk(cfg, s1, true, avail, p0, all);
      case PublishAll(wait) => PublishAllOk(cfg, s, wait, avail, p0, all);
      case _ =>
    }
  }

  /** The invariant over every run of commands, whichever publishes succeed. */
  lemma {:induction false} RunsOk(cfg: Config, s: Server, cmds: seq<Command>, avails: seq<Avail>)
    requires Fresh(s) && |cmds| == |avails|
    ensures RunOk(Run(cfg, s, cmds, avails), View(s), cmds)
  {
    if cmds == [] {
      forall i | 0 <= i < |s.segs|
        ensures SegOk(s.segs[i], View(s), cmds, i)
      {
        assert s.segs[i] == NewSeg(s.segs[i].default, s.segs[i].number);
      }
    } else {
      var n := |cmds| - 1;
      RunsOk(cfg, s, cmds[..n], avails[..n]);
      ExecOk(cfg, Run(cfg, s, cmds[..n], avails[..n]), cmds[n], avails[n], View(s), cmds[..n]);
      assert cmds == cmds[..n] + [cmds[n]];
    }
  }

  // ---------------------------------------------------------------- main results

  ghost predicate Sized(s: Server) {
    forall i :: 0 <= i < |s.segs| ==> |s.segs[i].page| == |s.segs[i].default|
  }

  /** XcpCalSegReadMemory: the page the client has selected, or an error. */
  function ReadMemory(s: Server, addr: nat, size: nat): (nat, seq<Byte>)
    requires Sized(s)
  {
    var i, off := SegNumber(addr), SegOffset(addr);
    if i >= |s.segs| || off + size > |s.segs[i].default| then (CRC_ACCESS_DENIED, [])
    else
      var page := if s.segs[i].xcpAccess != WORKING_PAGE then s.segs[i].default else s.segs[i].page;
      (CRC_CMD_OK, page[off..off + size])
  }

  /**
    No lost update. The working page always reads back as a plain byte array under the same
    commands, whichever publishes succeeded or timed out; and a segment with nothing pending has
    published exactly what it reads back.
   */
  lemma NoLostUpdate(cfg: Config, s: Server, cmds: seq<Command>, avails: seq<Avail>, addr: nat, size: nat)
    requires Fresh(s) && |cmds| == |avails| && SegNumber(addr) < |s.segs|
    ensures var s', i, off := Run(cfg, s, cmds, avails), SegNumber(addr), SegOffset(addr);
      && |s'.segs| == |s.segs| && Sized(s')
      && |PlainRun(View(s), cmds).pages[i]| == |s.segs[i].default|
      && (s'.segs[i].xcpAccess == WORKING_PAGE && off + size <= |s.segs[i].default| ==>
            ReadMemory(s', addr, size) == (CRC_CMD_OK, PlainRun(View(s), cmds).pages[i][off..off + size]))
      && (!s'.segs[i].pending ==>
            var vs := Versions(s'.segs[i].default, s'.segs[i].trace); vs[|vs| - 1] == PlainRun(View(s), cmds).pages[i])
  {
    RunsOk(cfg, s, cmds, avails);
    DefaultsKept(cfg, s, cmds, avails, SegNumber(addr));
    SizesKept(Run(cfg, s, cmds, avails), View(s), cmds);
    SegAgrees(Run(cfg, s, cmds, avails), View(s), cmds, SegNumber(addr));
  }

  lemma SizesKept(s: Server, p0: Plain, cmds: seq<Command>)
    requires |p0.access| == |p0.pages| == |p0.numbers| && RunOk(s, p0, cmds)
    ensures Sized(s)
  {
    forall j | 0 <= j < |s.segs|
      ensures |s.segs[j].page| == |s.segs[j].default|
    {
      assert SegOk(s.segs[j], p0, cmds, j);
    }
  }

  lemma SegAgrees(s: Server, p0: Plain, cmds: seq<Command>, i: nat)
    requires |p0.access| == |p0.pages| == |p0.numbers| && RunOk(s, p0, cmds) && i < |s.segs|
    ensures i < |PlainRun(p0, cmds).pages| && s.segs[i].page == PlainRun(p0, cmds).pages[i]
    ensures var vs := Versions(s.segs[i].default, s.segs[i].trace);
      !s.segs[i].pending ==> vs[|vs| - 1] == s.segs[i].page
  {
    assert SegOk(s.segs[i], p0, cmds, i);
    assert View(s).pages[i] == s.segs[i].page;
  }

  lemma {:induction false} DefaultsKept(cfg: Config, s: Server, cmds: seq<Command>, avails: seq<Avail>, i: nat)
    requires |cmds| == |avails| && i < |s.segs|
    ensures |Run(cfg, s, cmds, avails).segs| == |s.segs| &&
      Run(cfg, s, cmds, avails).segs[i].default == s.segs[i].default
  {
    if cmds != [] {
      var n := |cmds| - 1;
      DefaultsKept(cfg, s, cmds[..n], avails[..n], i);
    }
  }

  /**
    Transactions are atomic. Every version of a segment is the client's page after a number of
    commands at which no transaction is open, and later versions belong to later commands.
   */
  lemma VersionsAtBoundaries(cfg: Config, s: Server, cmds: seq<Command>, avails: seq<Avail>, i: nat)
    requires Fresh(s) && |cmds| == |avails| && i < |s.segs|
    ensures i < |Run(cfg, s, cmds, avails).segs|
    ensures var seg := Run(cfg, s, cmds, avails).segs[i];
      var vs := Versions(seg.default, seg.trace);
      && seg.default == s.segs[i].default
      && |seg.stamps| == |vs|
      && (forall v :: 0 <= v < |vs| ==>
            && seg.stamps[v] <= |cmds|
            && !InTransaction(cmds[..seg.stamps[v]])
            && vs[v] == PlainRun(View(s), cmds[..seg.stamps[v]]).pages[i])
      && (forall v, w :: 0 <= v < w < |vs| ==> seg.stamps[v] <= seg.stamps[w])
  {
    RunsOk(cfg, s, cmds, avails);
    DefaultsKept(cfg, s, cmds, avails, i);
    var seg := Run(cfg, s, cmds, avails).segs[i];
    var vs := Versions(seg.default, seg.trace);
    assert SegOk(seg, View(s), cmds, i);
    forall v | 0 <= v < |vs|
      ensures seg.stamps[v] <= |cmds| && !InTransaction(cmds[..seg.stamps[v]])
      ensures vs[v] == PlainRun(View(s), cmds[..seg.stamps[v]]).pages[i]
    {
      assert StampOk(vs[v], seg.stamps[v], View(s), cmds, i);
    }
  }

  /**
    What OK from PublishAll (and so from the end of a transaction) means: outside a transaction,
    exactly the segments that PublishAll skips may still be pending.
   */
  lemma PublishAllComplete(cfg: Config, s: Server, wait: bool, avail: Avail, stamp: nat, i: nat)
    requires i < |s.segs|
    ensures var s' := PublishAllResult(cfg, s, wait, avail, stamp);
      PublishAllCode(cfg, s, wait, avail) == CRC_CMD_OK ==>
        (s'.segs[i].pending <==> s.segs[i].pending && (s.writeDelayed || i < cfg.firstPublished))
  {
    if PublishAllCode(cfg, s, wait, avail) == CRC_CMD_OK && Due(cfg, s, i) {
      assert Succeeds(i, wait, avail);
    }
  }

  /** The EPK segment is such a segment: a transaction on it ends with OK and is not published. */
  lemma EpkTransactionNotPublished()
    ensures var s := Server([NewSeg([0], 0)], false);
      var cfg := Config(1, true);
      var cmds := [Begin, WriteMemory(0, [1]), End];
      var always: Avail := (i, k) => true;
      var before := Run(cfg, s, cmds[..2], [always, always]);
      var after := Run(cfg, s, cmds, [always, always, always]);
      && PublishAllCode(cfg, before.(writeDelayed := false), true, always) == CRC_CMD_OK
      && |after.segs| == 1 && after.segs[0].page == [1] && after.segs[0].pending
  {
    var s := Server([NewSeg([0], 0)], false);
    var cfg := Config(1, true);
    var always: Avail := (i, k) => true;
    var s1 := Run(cfg, s, [Begin], [always]);
    assert [Begin][..0] == [] && [always][..0] == [];
    assert Run(cfg, s, [Begin][..0], [always][..0]) == s;
    assert s1 == s.(writeDelayed := true);
    var two := [Begin, WriteMemory(0, [1])];
    assert two[..1] == [Begin] && [always, always][..1] == [always];
    var s2 := Run(cfg, s, two, [always, always]);
    assert s2 == WriteResult(cfg, s1, 0, [1], always, 2);
    assert s2.segs[0].page == [1] && s2.segs[0].pending && s2.writeDelayed;
    var three := [Begin, WriteMemory(0, [1]), End];
    assert three[..2] == two && [always, always, always][..2] == [always, always];
    assert Run(cfg, s, three, [always, always, always]) ==
      PublishAllResult(cfg, s2.(writeDelayed := false), true, always, 3);
  }
}
