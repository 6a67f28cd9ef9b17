/** The segment list as the server thread updates it, command by command. */
module CalSegList {
  import opened Bytes
  import opened CalServer

  class SegmentList {
    const cfg: Config
    var segs: seq<Seg>
    var writeDelayed: bool

    ghost function Model(): Server
      reads this
    {
      Server(segs, writeDelayed)
    }

    constructor (cfg: Config, initial: seq<Seg>)
      ensures this.cfg == cfg && Model() == Server(initial, false)
    {
      this.cfg := cfg;
      segs := initial;
      writeDelayed := false;
    }

    /** XcpCalSegPublish: one attempt, or attempts until the timeout; the changes stay pending when all fail. */
    method Publish(i: nat, wait: bool, avail: Avail, stamp: nat) returns (crc: nat)
      requires i < |segs|
      modifies this`segs
      ensures segs == old(segs)[i := Published(old(segs[i]), Succeeds(i, wait, avail), stamp)]
      ensures crc == PublishCode(Succeeds(i, wait, avail), wait)
    {
      var published := avail(i, 0);
      if !published && wait {
        var timeout := 0;
        while timeout < PUBLISH_TIMEOUT && !published
          invariant 0 <= timeout <= PUBLISH_TIMEOUT
          invariant published ==> avail(i, timeout)
          invariant !published ==> forall k: nat :: k <= timeout ==> !avail(i, k)
        {
          timeout := timeout + 1;
          published := avail(i, timeout);
        }
      }
      if !published {
        segs := segs[i := segs[i].(pending := true)];
        return if wait then CRC_ACCESS_DENIED else CRC_CMD_PENDING;
      }
      segs := segs[i := Published(segs[i], true, stamp)];
      return CRC_CMD_OK;
    }

    /** XcpCalSegPublishAll: every pending segment that is not skipped, unless a transaction is open. */
    method PublishAllSegments(wait: bool, avail: Avail, stamp: nat) returns (crc: nat)
      modifies this`segs
      ensures Model() == PublishAllResult(cfg, old(Model()), wait, avail, stamp)
      ensures crc == PublishAllCode(cfg, old(Model()), wait, avail)
    {
      ghost var s := Model();
      ghost var end := PublishAllResult(cfg, s, wait, avail, stamp);
      crc := CRC_CMD_OK;
      if !writeDelayed {
        var i := cfg.firstPublished;
        while i < |segs|
          invariant |segs| == |s.segs| && cfg.firstPublished <= i
          invariant forall j :: 0 <= j < |segs| ==> segs[j] == if j < i then end.segs[j] else s.segs[j]
          invariant crc == if exists j: nat :: j < i && j < |s.segs| && Due(cfg, s, j) && !Succeeds(j, wait, avail)
                           then PublishCode(false, wait) else CRC_CMD_OK
        {
          if segs[i].pending {
            assert Due(cfg, s, i);
            var crc1 := Publish(i, wait, avail, stamp);
            if crc1 != CRC_CMD_OK {
              crc := crc1;
            }
          }
          i := i + 1;
        }
      }
      assert segs == end.segs;
    }

    /** XcpCalSegWriteMemory. */
    method Write(addr: nat, data: seq<Byte>, avail: Avail, stamp: nat) returns (crc: nat)
      modifies this`segs
      ensures Model() == WriteResult(cfg, old(Model()), addr, data, avail, stamp)
      ensures crc == WriteCode(cfg, old(Model()), addr, data, avail)
    {
      var i := SegNumber(addr);
      var offset := SegOffset(addr);
      if i >= |segs| {
        return CRC_ACCESS_DENIED;
      }
      if offset + |data| > |segs[i].page| {
        return CRC_ACCESS_DENIED;
      }
      if segs[i].xcpAccess != WORKING_PAGE {
        return CRC_ACCESS_DENIED;
      }
      segs := segs[i := segs[i].(page := Splice(segs[i].page, offset, data),
        trace := segs[i].trace + Stores(offset, data))];
      if writeDelayed {
        segs := segs[i := segs[i].(pending := true)];
        return CRC_CMD_OK;
      } else if cfg.lazy {
        var ignored := Publish(i, false, avail, stamp);
        return CRC_CMD_OK;
      } else {
        crc := Publish(i, true, avail, stamp);
      }
    }

    method Read(addr: nat, size: nat) returns (crc: nat, data: seq<Byte>)
      requires Sized(Model())
      ensures (crc, data) == ReadMemory(Model(), addr, size)
    {
      var i := SegNumber(addr);
      var offset := SegOffset(addr);
      if i >= |segs| || offset + size > |segs[i].default| {
        return CRC_ACCESS_DENIED, [];
      }
      var page := if segs[i].xcpAccess != WORKING_PAGE then segs[i].default else segs[i].page;
      return CRC_CMD_OK, page[offset..offset + size];
    }

    method BeginAtomicTransaction()
      modifies this`writeDelayed
      ensures Model() == old(Model()).(writeDelayed := true)
    {
      writeDelayed := true;
    }

    method EndAtomicTransaction(avail: Avail, stamp: nat) returns (crc: nat)
      modifies this
      ensures Model() == PublishAllResult(cfg, old(Model()).(writeDelayed := false), true, avail, stamp)
      ensures crc == PublishAllCode(cfg, old(Model()).(writeDelayed := false), true, avail)
    {
      writeDelayed := false;
      crc := PublishAllSegments(true, avail, stamp);
    }

    /** XcpGetCalSegIndex. */
    method FindNumber(number: nat) returns (i: nat)
      ensures i == IndexOf(Numbers(Model()), number)
    {
      i := 0;
      while i < |segs| && segs[i].number != number
        invariant i <= |segs|
        invariant IndexOf(Numbers(Model()), number) == i + IndexOf(Numbers(Model())[i..], number)
      {
        i := i + 1;
      }
    }

    /** XcpCalSegSetCalPage. */
    method SetPage(number: nat, page: nat, mode: nat) returns (crc: nat)
      modifies this`segs
      ensures Model() == SetCalPageResult(old(Model()), number, page, mode)
      ensures crc == if SetCalPageOk(Numbers(old(Model())), number, page) then CRC_CMD_OK else CRC_ACCESS_DENIED
    {
      var index := FindNumber(number);
      if index >= |segs| || page > 1 {
        return CRC_ACCESS_DENIED;
      }
      ghost var s := Model();
      ghost var end := SetCalPageResult(s, number, page, mode);
      if AllMode(mode) {
        for i := 0 to |segs|
          invariant |segs| == |s.segs|
          invariant forall j :: 0 <= j < |segs| ==> segs[j] == if j < i then end.segs[j] else s.segs[j]
        {
          SelectPage(i, page, mode);
        }
      } else {
        SelectPage(index, page, mode);
      }
      assert segs == end.segs;
      return CRC_CMD_OK;
    }

    method SelectPage(i: nat, page: nat, mode: nat)
      requires i < |segs|
      modifies this`segs
      ensures segs == old(segs)[i := old(segs[i]).(ecuAccess := if EcuMode(mode) then page else old(segs[i].ecuAccess),
                                                   xcpAccess := if XcpMode(mode) then page else old(segs[i].xcpAccess))]
    {
      if EcuMode(mode) {
        segs := segs[i := segs[i].(ecuAccess := page)];
      }
      if XcpMode(mode) {
        segs := segs[i := segs[i].(xcpAccess := page)];
      }
    }
  }
}
