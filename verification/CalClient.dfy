/**
  What a client can rely on: the address of a segment, which page its reads and writes go to, what a
  mode of SET_CAL_PAGE selects, and what the return codes of write and publish mean.
 */
module CalClient {
  import opened Bytes
  import opened CalServer
  import opened VersionRegister
  import B = BinFile

  const CRC_OK := 0x00
  const CRC_PENDING := 0x01
  const CRC_DENIED := 0x24

  /** The address that a segment is published under leads back to it, at every offset. */
  lemma AddressRoundTrip(index: nat, off: nat)
    requires index < 0x8000 && off < 0x10000
    ensures SegNumber(B.BaseAddress(index) + off) == index && SegOffset(B.BaseAddress(index) + off) == off
    ensures B.BaseAddress(index) == 0x8000_0000 + index * 0x10000
  {
  }

  // ---------------------------------------------------------------- SET_CAL_PAGE and GET_CAL_PAGE

  /** The first segment with this number. */
  ghost predicate IsFirst(s: Server, number: nat, i: nat) {
    i < |s.segs| && s.segs[i].number == number && forall j :: 0 <= j < i ==> s.segs[j].number != number
  }

  lemma {:induction false} IndexOfFirst(numbers: seq<nat>, number: nat)
    ensures var i := IndexOf(numbers, number);
      (forall j :: 0 <= j < i ==> numbers[j] != number) && (i < |numbers| ==> numbers[i] == number)
  {
    if numbers != [] && numbers[0] != number {
      IndexOfFirst(numbers[1..], number);
      forall j | 0 <= j < IndexOf(numbers, number)
        ensures numbers[j] != number
      {
        assert j > 0 ==> numbers[1..][j - 1] == numbers[j];
      }
    }
  }

  lemma FirstIsIndex(s: Server, number: nat, i: nat)
    ensures i == IndexOf(Numbers(s), number) < |s.segs| <==> IsFirst(s, number, i)
  {
    IndexOfFirst(Numbers(s), number);
    var k := IndexOf(Numbers(s), number);
    assert forall j :: 0 <= j < k && j < |s.segs| ==> s.segs[j].number != number by {
      assert forall j :: 0 <= j < |s.segs| ==> Numbers(s)[j] == s.segs[j].number;
    }
    assert k < |s.segs| ==> s.segs[k].number == number;
  }

  /** The segment is one that a SET_CAL_PAGE with this mode is about: the one with the number, or any. */
  ghost predicate IsMeant(s: Server, number: nat, mode: nat, i: nat) { mode >= 0x80 || IsFirst(s, number, i) }

  const ECU := 0x01
  const XCP := 0x02
  const ALL := 0x80

  /**
    The modes that the protocol knows, one by one: 0x01 selects the page of the application alone,
    0x02 that of the client alone, 0x03 both, and 0x80 on top does it for all segments. A number that
    does not exist or a page other than 0 and 1 changes nothing.
   */
  lemma SetPageEffect(s: Server, number: nat, page: nat, mode: nat, i: nat)
    requires mode in {ECU, XCP, ECU + XCP, ALL + ECU, ALL + XCP, ALL + ECU + XCP} && i < |s.segs|
    ensures var s' := SetCalPageResult(s, number, page, mode);
      && |s'.segs| == |s.segs| && s'.writeDelayed == s.writeDelayed
      && if page <= 1 && (exists k :: IsFirst(s, number, k)) && IsMeant(s, number, mode, i) then
           s'.segs[i] == s.segs[i].(ecuAccess := if mode in {0x01, 0x03, 0x81, 0x83} then page else s.segs[i].ecuAccess,
                                    xcpAccess := if mode in {0x02, 0x03, 0x82, 0x83} then page else s.segs[i].xcpAccess)
         else s'.segs[i] == s.segs[i]
  {
    FirstIsIndex(s, number, i);
    FirstIsIndex(s, number, IndexOf(Numbers(s), number));
    forall k | IsFirst(s, number, k)
      ensures k == IndexOf(Numbers(s), number)
    {
      FirstIsIndex(s, number, k);
    }
  }

  /** Selecting a page for the application alone leaves the client's reads and writes as they were. */
  lemma EcuModeKeepsClient(cfg: Config, s: Server, number: nat, page: nat, mode: nat, addr: nat, size: nat,
                           data: seq<Byte>, avail: Avail, stamp: nat)
    requires Sized(s) && mode in {ECU, ALL + ECU}
    ensures var s' := SetCalPageResult(s, number, page, mode);
      && Sized(s') && ReadMemory(s', addr, size) == ReadMemory(s, addr, size)
      && WriteCode(cfg, s', addr, data, avail) == WriteCode(cfg, s, addr, data, avail)
      && View(WriteResult(cfg, s', addr, data, avail, stamp)) == View(WriteResult(cfg, s, addr, data, avail, stamp))
  {
    var s' := SetCalPageResult(s, number, page, mode);
    forall i | 0 <= i < |s.segs|
      ensures s'.segs[i] == s.segs[i].(ecuAccess := s'.segs[i].ecuAccess)
    {
      SetPageEffect(s, number, page, mode, i);
    }
    assert View(s').pages == View(s).pages && View(s').access == View(s).access && Numbers(s') == Numbers(s);
    ExecPlain(cfg, s', WriteMemory(addr, data), avail, stamp);
    ExecPlain(cfg, s, WriteMemory(addr, data), avail, stamp);
  }

  /** XcpCalSegGetCalPage. */
  function GetCalPage(s: Server, number: nat, mode: nat): nat {
    var i := IndexOf(Numbers(s), number);
    if i >= |s.segs| then 0xFF
    else if mode == ECU then s.segs[i].ecuAccess
    else if mode == XCP then s.segs[i].xcpAccess
    else 0xFF
  }

  /** What SET_CAL_PAGE has selected is what GET_CAL_PAGE reports, and the other page is as before. */
  lemma GetPageRoundTrip(s: Server, number: nat, page: nat)
    requires page <= 1 && exists k :: IsFirst(s, number, k)
    ensures GetCalPage(SetCalPageResult(s, number, page, 0x01), number, 0x01) == page
    ensures GetCalPage(SetCalPageResult(s, number, page, 0x02), number, 0x02) == page
    ensures GetCalPage(SetCalPageResult(s, number, page, 0x01), number, 0x02) == GetCalPage(s, number, 0x02)
    ensures GetCalPage(SetCalPageResult(s, number, page, 0x02), number, 0x01) == GetCalPage(s, number, 0x01)
  {
    var i :| IsFirst(s, number, i);
    FirstIsIndex(s, number, i);
    SetPageEffect(s, number, page, 0x01, i);
    SetPageEffect(s, number, page, 0x02, i);
    assert Numbers(SetCalPageResult(s, number, page, 0x01)) == Numbers(s);
    assert Numbers(SetCalPageResult(s, number, page, 0x02)) == Numbers(s);
  }

  // ---------------------------------------------------------------- reads and writes

  /** The range lies in segment `i`. */
  predicate InSegment(s: Server, i: nat, off: nat, size: nat) {
    i < |s.segs| && i < 0x8000 && off < 0x10000 && off + size <= |s.segs[i].default|
  }

  /** A read returns the page that the client has selected: the default page exactly if that is page 1. */
  lemma ReadFollowsPage(s: Server, i: nat, off: nat, size: nat)
    requires Sized(s) && i < 0x8000 && off < 0x10000
    ensures var addr := B.BaseAddress(i) + off;
      if InSegment(s, i, off, size) then
        && (s.segs[i].xcpAccess == 0 ==> ReadMemory(s, addr, size) == (CRC_OK, s.segs[i].page[off..off + size]))
        && (s.segs[i].xcpAccess == 1 ==> ReadMemory(s, addr, size) == (CRC_OK, s.segs[i].default[off..off + size]))
      else ReadMemory(s, addr, size) == (CRC_DENIED, [])
  {
    AddressRoundTrip(i, off);
  }

  /**
    A write that is accepted reads back, and leaves every other byte as it was, in this segment and
    in all others; it is denied, and changes nothing, exactly if the range does not exist or the
    client has the default page selected.
   */
  lemma WriteReadsBack(cfg: Config, s: Server, i: nat, off: nat, data: seq<Byte>, avail: Avail, stamp: nat)
    requires Sized(s) && i < 0x8000 && off < 0x10000
    ensures var addr := B.BaseAddress(i) + off; var s' := WriteResult(cfg, s, addr, data, avail, stamp);
      && Sized(s') && |s'.segs| == |s.segs|
      && if InSegment(s, i, off, |data|) && s.segs[i].xcpAccess == 0 then
           && ReadMemory(s', addr, |data|) == (CRC_OK, data)
           && (forall x :: 0 <= x < |s.segs[i].page| && !(off <= x < off + |data|) ==>
                 s'.segs[i].page[x] == s.segs[i].page[x])
           && (forall j :: 0 <= j < |s.segs| && j != i ==> s'.segs[j] == s.segs[j])
         else s' == s && WriteCode(cfg, s, addr, data, avail) == CRC_DENIED
  {
    AddressRoundTrip(i, off);
    if InSegment(s, i, off, |data|) && s.segs[i].xcpAccess == 0 {
      var s' := WriteResult(cfg, s, B.BaseAddress(i) + off, data, avail, stamp);
      assert s'.segs[i].page == Splice(s.segs[i].page, off, data);
      assert s'.segs[i].page[off..off + |data|] == data;
    }
  }

  /** The newest version that the readers can get. */
  ghost function Newest(seg: Seg): Page { Versions(seg.default, seg.trace)[|Versions(seg.default, seg.trace)| - 1] }

  /** The attempts of a command on a segment: the first one, and up to 500 more if it waits. */
  predicate Given(avail: Avail, i: nat, wait: bool) { exists k: nat :: k <= (if wait then 500 else 0) && avail(i, k) }

  lemma GivenSucceeds(avail: Avail, i: nat, wait: bool)
    ensures Succeeds(i, wait, avail) <==> Given(avail, i, wait)
  {
    if Succeeds(i, wait, avail) {
      var k: nat :| k < Attempts(wait) && avail(i, k);
      assert k <= (if wait then 500 else 0) && avail(i, k);
    }
    if Given(avail, i, wait) {
      var k: nat :| k <= (if wait then 500 else 0) && avail(i, k);
      assert k < Attempts(wait) && avail(i, k);
    }
  }

  /**
    When the readers get an accepted write: inside a transaction not yet; outside one as soon as an
    attempt succeeds - the first or one of 500 more, or the first alone if publishing is lazy. OK means
    just that, except in a transaction and with lazy publishing, where it means only that it is written.
   */
  lemma WritePublishes(cfg: Config, s: Server, i: nat, off: nat, data: seq<Byte>, avail: Avail, stamp: nat)
    requires Sized(s) && i < 0x8000 && off < 0x10000 && InSegment(s, i, off, |data|) && s.segs[i].xcpAccess == 0
    requires s.segs[i].page == Working(s.segs[i].default, s.segs[i].trace)
    ensures var addr := B.BaseAddress(i) + off; var s' := WriteResult(cfg, s, addr, data, avail, stamp);
      var published := !s.writeDelayed && Given(avail, i, !cfg.lazy);
      && |s'.segs| == |s.segs| && s'.segs[i].pending == !published
      && Newest(s'.segs[i]) == (if published then s'.segs[i].page else Newest(s.segs[i]))
      && WriteCode(cfg, s, addr, data, avail) ==
           (if s.writeDelayed || cfg.lazy || published then CRC_OK else CRC_DENIED)
  {
    AddressRoundTrip(i, off);
    GivenSucceeds(avail, i, !cfg.lazy);
    var seg := s.segs[i];
    StoresWork(seg.default, seg.trace, off, data);
    AnnounceAdds(seg.default, seg.trace + Stores(off, data));
  }

  lemma AnnounceAdds(default: Page, trace: seq<WriterEvent>)
    ensures Versions(default, trace + [Announce]) == Versions(default, trace) + [Working(default, trace)]
  {
    assert (trace + [Announce])[..|trace|] == trace;
  }

  /** What publishing all segments returns: OK exactly if every segment that is due is published. */
  lemma PublishAllMeaning(cfg: Config, s: Server, wait: bool, avail: Avail)
    ensures PublishAllCode(cfg, s, wait, avail) == CRC_OK <==>
      s.writeDelayed ||
      forall i: nat :: cfg.firstPublished <= i < |s.segs| && s.segs[i].pending ==> Given(avail, i, wait)
    ensures PublishAllCode(cfg, s, wait, avail) != CRC_OK ==>
      PublishAllCode(cfg, s, wait, avail) == if wait then CRC_DENIED else CRC_PENDING
  {
    forall i: nat
      ensures Succeeds(i, wait, avail) <==> Given(avail, i, wait)
    {
      GivenSucceeds(avail, i, wait);
    }
    assert forall i: nat :: Due(cfg, s, i) <==>
      !s.writeDelayed && cfg.firstPublished <= i < |s.segs| && s.segs[i].pending;
  }

  /**
    The end of a transaction with OK, after any run of commands: the newest version of every segment
    that is not skipped is exactly what the client reads back.
   */
  lemma EndPublishes(cfg: Config, s: Server, cmds: seq<Command>, avails: seq<Avail>, avail: Avail, i: nat)
    requires Fresh(s) && |cmds| == |avails| && cfg.firstPublished <= i < |s.segs|
    requires var s0 := Run(cfg, s, cmds, avails);
      forall j: nat :: cfg.firstPublished <= j < |s0.segs| && s0.segs[j].pending ==> Given(avail, j, true)
    ensures PublishAllCode(cfg, Run(cfg, s, cmds, avails).(writeDelayed := false), true, avail) == CRC_OK
    ensures var s' := Run(cfg, s, cmds + [End], avails + [avail]);
      && i < |s'.segs| && !s'.segs[i].pending && !s'.writeDelayed
      && i < |PlainRun(View(s), cmds).pages| && Newest(s'.segs[i]) == PlainRun(View(s), cmds).pages[i]
  {
    var s1 := Run(cfg, s, cmds, avails).(writeDelayed := false);
    PublishAllMeaning(cfg, s1, true, avail);
    assert (cmds + [End])[..|cmds|] == cmds && (avails + [avail])[..|avails|] == avails;
    var s' := Run(cfg, s, cmds + [End], avails + [avail]);
    assert s' == PublishAllResult(cfg, s1, true, avail, |cmds| + 1);
    RunsOk(cfg, s, cmds + [End], avails + [avail]);
    PublishAllComplete(cfg, s1, true, avail, |cmds| + 1, i);
    SegAgrees(s', View(s), cmds + [End], i);
    assert PlainRun(View(s), cmds + [End]) == PlainRun(View(s), cmds);
  }

  // ---------------------------------------------------------------- the page of the application, over whole runs

  /** The page last selected for the application on segment `i`, as the client's commands say: 0 at first. */
  ghost function SelectedPage(s0: Server, cmds: seq<Command>, i: nat): nat {
    if cmds == [] then 0
    else
      var before, cmd := SelectedPage(s0, cmds[..|cmds| - 1], i), cmds[|cmds| - 1];
      if cmd.SetCalPage? && cmd.page <= 1 && cmd.mode % 2 == 1 && (exists k :: IsFirst(s0, cmd.number, k)) &&
         (cmd.mode / 0x80 % 2 == 1 || IsFirst(s0, cmd.number, i))
      then cmd.page else before
  }

  lemma NumbersKept(cfg: Config, s: Server, cmd: Command, avail: Avail, stamp: nat)
    ensures Numbers(Exec(cfg, s, cmd, avail, stamp)) == Numbers(s)
  {
    var s' := Exec(cfg, s, cmd, avail, stamp);
    forall i | 0 <= i < |s.segs|
      ensures |s'.segs| == |s.segs| && s'.segs[i].number == s.segs[i].number
    {
    }
  }

  lemma FirstKept(s0: Server, s: Server, number: nat)
    requires Numbers(s) == Numbers(s0)
    ensures IndexOf(Numbers(s), number) < |s.segs| <==> exists k :: IsFirst(s0, number, k)
    ensures forall i: nat :: IndexOf(Numbers(s), number) < |s.segs| ==>
              (i == IndexOf(Numbers(s), number) <==> IsFirst(s0, number, i))
  {
    assert |Numbers(s)| == |s.segs| && |Numbers(s0)| == |s0.segs|;
    FirstIsIndex(s0, number, IndexOf(Numbers(s0), number));
    forall i: nat
      ensures i == IndexOf(Numbers(s0), number) < |s0.segs| <==> IsFirst(s0, number, i)
    {
      FirstIsIndex(s0, number, i);
    }
  }

  /** Over every run, the access of the application is the page that the commands have selected. */
  lemma {:induction false} AccessFollowsCommands(cfg: Config, s0: Server, cmds: seq<Command>, avails: seq<Avail>,
                                                i: nat)
    requires Fresh(s0) && |cmds| == |avails| && i < |s0.segs|
    ensures var s := Run(cfg, s0, cmds, avails);
      Numbers(s) == Numbers(s0) && i < |s.segs| && s.segs[i].ecuAccess == SelectedPage(s0, cmds, i) <= 1
  {
    if cmds == [] {
      assert s0.segs[i] == NewSeg(s0.segs[i].default, s0.segs[i].number);
    } else {
      var n := |cmds| - 1;
      var s := Run(cfg, s0, cmds[..n], avails[..n]);
      AccessFollowsCommands(cfg, s0, cmds[..n], avails[..n], i);
      NumbersKept(cfg, s, cmds[n], avails[n], n + 1);
      assert |Numbers(s)| == |s.segs| && |Numbers(s0)| == |s0.segs|;
      if cmds[n].SetCalPage? {
        FirstKept(s0, s, cmds[n].number);
      }
    }
  }
}
